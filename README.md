# Mayo: document metadata and "File" command helpers, in Dafny

This project models two parts of the Mayo CAD viewer and proves properties of them.

1. **`PropertyArrayOfStringMetaData`**. This is the metadata property of a document. It holds an ordered
   list of name/value string pairs (`StringMetaData`).
   - Lookups are first-match.
   - `indexOf` returns -1 when the name is absent, and `valueOf` returns the empty string.
   - `add(StringMetaData)` inserts a pair, or updates the first pair with the same name.
   - `add(name, value)` always appends.
   - `changeValue` and `erase` work by index or by name. Both check bounds: an index out of range does nothing.
   - `clear` empties the list.
   - Every mutation except `add(name, value)` is framed by one `notifyAboutToChange` / `notifyChanged`
     pair of the `Property` base class. `changeValue` and `erase` send the pair only when the index is in
     range. `clear` sends the pair even when the list is already empty.

   The model is the class `MetaDataArray.PropertyArrayOfStringMetaData`. Its field `entries` stands for
   the vector, and its methods change that field in place. The ghost field `notifications` logs each
   notification together with the array it observes, so "before" and "after the change" are explicit.
   Pure functions state what each mutation does to the sequence (`Added`, `WithValue`, `Erased`) and what
   the lookups return (`IndexOf`, `ValueOf`). Lemmas relate the operations to each other.

2. **The string and list helpers of `src/app/commands.cpp`** (module `Commands`):
   - `strFilepathQuoted` wraps a path in double quotes when the path contains whitespace.
   - `fileFilter` builds the file-dialog filter text of an IO format from its suffixes.
   - `formatFromFilter` does a reverse lookup: first over the reader formats, then over the writer formats.
   - `CommandNewDocument` names new documents `Anonymous1`, `Anonymous2`, … from a static counter.
   - The two `updateActionText` methods build the labels of the "Close" actions.
   - `CommandCloseAllDocumentsExceptCurrent::execute` takes a snapshot of the document list, then closes
     every document that is not the current one.

   Three things the commands get from outside are passed in as values:
   - An IO format is the value `KnownFormat(identifier, suffixes)`. It stands for `IO::formatIdentifier`
     and `IO::formatFileSuffixes`.
   - The platform test `Q_OS_UNIX` is the parameter `unix`.
   - The application's documents form a list of identifier/name pairs in the class `Commands.Application`.
     Identifiers are unique and non-negative; -1 means "no document".

   Module `Decimal` gives the decimal text that `QString::arg` produces for an unsigned counter, and its
   inverse.

Four source loops are Dafny methods with loops: the whitespace scan of `strFilepathQuoted`, the suffix
accumulation of `fileFilter`, the two searches of `formatFromFilter`, and the close loop of
close-all-except-current. Each method is proved against a function that states its result:
`StrFilepathQuoted` against `Quoted`, `FileFilter` against `FilterText`, `FormatFromFilter` against
`FormatForFilter`, and `Execute` against `Survivors`. The properties are proved about those functions.
Two other source iterations are values: the `std::find_if` scan of `indexOf` is the recursive function
`IndexOf`, and the loop that copies the GUI documents into a snapshot is one sequence assignment.

## Model

| member | source | states |
|---|---|---|
| `MetaDataArray.IndexOf` | src/base/property_array_of_string_metadata.cpp:18-24 | The result is -1 exactly when no entry has the name. Otherwise it is the position of the first entry with that name. |
| `MetaDataArray.ValueOf` | src/base/property_array_of_string_metadata.cpp:26-31 | The empty string when the name is absent. Otherwise the value of the first entry with that name. |
| `MetaDataArray.Added` | src/base/property_array_of_string_metadata.cpp:33-44 | After add(data), data.name is present and valueOf(data.name) is data.value. A new name is appended: the length grows by one and earlier entries are unchanged. An existing name keeps the length and all names. Every entry other than the first match is unchanged. Unique names stay unique. |
| `MetaDataArray.WithValue` | src/base/property_array_of_string_metadata.cpp:54-61 | changeValue(index) keeps all names and every other entry. An in-range index gets the new value. An out-of-range index changes nothing. Unique names stay unique. |
| `MetaDataArray.Erased` | src/base/property_array_of_string_metadata.cpp:68-75 | erase(index) with an in-range index removes exactly that entry (the multiset loses it). The entries before it keep their positions, the entries after it shift down by one, and unique names stay unique. An out-of-range index changes nothing. |
| `MetaDataArray.PropertyArrayOfStringMetaData.constructor` | src/base/property_array_of_string_metadata.cpp:13-16 | A new property holds no entries and has notified nothing. |
| `MetaDataArray.PropertyArrayOfStringMetaData.Add` | src/base/property_array_of_string_metadata.cpp:33-44 | The entries become `Added(old entries, data)`. Exactly one aboutToChange/changed pair is logged: on the append path and on the changeValue path alike. |
| `MetaDataArray.PropertyArrayOfStringMetaData.Append` | src/base/property_array_of_string_metadata.cpp:46-52 | add(name, value) appends the pair with no lookup and logs no notification. |
| `MetaDataArray.PropertyArrayOfStringMetaData.ChangeValueAt` | src/base/property_array_of_string_metadata.cpp:54-61 | The entries become `WithValue(old entries, index, value)`. One notification pair is logged when the index is in range, and none otherwise. |
| `MetaDataArray.PropertyArrayOfStringMetaData.ChangeValueOf` | src/base/property_array_of_string_metadata.cpp:63-66 | The value of the first entry with the name changes. When the name is absent, nothing changes and nothing is notified. |
| `MetaDataArray.PropertyArrayOfStringMetaData.EraseAt` | src/base/property_array_of_string_metadata.cpp:68-75 | The entries become `Erased(old entries, index)`. One notification pair is logged when the index is in range, and none otherwise. |
| `MetaDataArray.PropertyArrayOfStringMetaData.EraseNamed` | src/base/property_array_of_string_metadata.cpp:77-80 | Only the first entry with the name is removed. When the name is absent, nothing changes and nothing is notified. |
| `MetaDataArray.PropertyArrayOfStringMetaData.Clear` | src/base/property_array_of_string_metadata.cpp:82-87 | The list becomes empty. One aboutToChange/changed pair is always logged, even when the list was already empty. |
| `MetaDataArray.IndexOfUnique` | src/base/property_array_of_string_metadata.cpp:18-24 | When names are unique, indexOf of an entry's name is that entry's position. |
| `MetaDataArray.AddIdempotent` | src/base/property_array_of_string_metadata.cpp:33-44 | Adding the same pair twice gives the same entries as adding it once. |
| `MetaDataArray.ChangeValueThenValueOf` | src/base/property_array_of_string_metadata.cpp:63-66 | After changeValue(name, v) on a present name, valueOf(name) is v. |
| `MetaDataArray.ChangeValueKeepsOtherLookups` | src/base/property_array_of_string_metadata.cpp:54-61 | Changing one entry's value does not change indexOf or valueOf for any other name. |
| `MetaDataArray.EraseNamedRemovesName` | src/base/property_array_of_string_metadata.cpp:77-80 | When names are unique, erase(name) removes the name entirely and leaves valueOf of every other name unchanged. |
| `MetaDataArray.AppendExistingNameDuplicates` | src/base/property_array_of_string_metadata.cpp:46-52 | add(name, value) with a name already present breaks name uniqueness. |
| `MetaDataArray.AppendExistingNameIsShadowed` | src/base/property_array_of_string_metadata.cpp:46-52 | add(name, value) with a name already present does not change valueOf(name): the earlier entry hides the appended one. |
| `Decimal.DecimalText` | src/app/commands.cpp:203 | The decimal text of the counter is non-empty and made only of digits, with no leading zero unless the number is 0. |
| `Decimal.ParseDecimalText` | src/app/commands.cpp:203 | Reading the decimal text of n back gives n. |
| `Decimal.DecimalTextInjective` | src/app/commands.cpp:203 | Two numbers with the same decimal text are equal. |
| `Commands.Quoted` | src/app/commands.cpp:140-148 | A path with no whitespace is returned unchanged. A path with whitespace gains exactly two characters: a double quote at each end. Dropping those two characters gives back the path. |
| `Commands.StrFilepathQuoted` | src/app/commands.cpp:140-148 | The early-return scan over the characters returns `Quoted(filepath)`. |
| `Commands.FilterBodyJoins` | src/app/commands.cpp:31-41 | The filter body the loop builds is the suffix patterns, in suffix order, joined by single spaces with no leading space. Each pattern is `*.s`, followed on Unix by ` *.S` (the suffix upper-cased). |
| `Commands.FilterText` | src/app/commands.cpp:26-47 | The filter text is empty exactly for Format_Unknown. |
| `Commands.FilterTextJoins` | src/app/commands.cpp:26-47 | For a known format, the filter text is `<identifier> files(<patterns joined by single spaces>)`. |
| `Commands.FileFilter` | src/app/commands.cpp:26-47 | The accumulating loop over the suffixes returns `FilterText(format, unix)`. |
| `Commands.FindByFilter` | src/app/commands.cpp:51-54 | The result is -1 exactly when no format has the filter text. Otherwise it is the position of the first format that has it. |
| `Commands.FormatForFilter` | src/app/commands.cpp:49-62 | The result is the first reader format whose filter text equals the input. If no reader format matches, it is the first writer format that does. If no format matches at all, it is Format_Unknown. |
| `Commands.FormatFromFilter` | src/app/commands.cpp:49-62 | The two search loops return `FormatForFilter(readers, writers, filter, unix)`. |
| `Commands.ReaderFilterRoundTrip` | src/app/commands.cpp:101-131 | When reader filter texts are distinct, choosing the filter of a reader format in the open dialog leads back to that format. |
| `Commands.WriterFilterRoundTrip` | src/app/commands.cpp:331-347 | Take a writer format whose filter text is shared by no other writer, and by no reader other than the same format. Choosing its filter in the save dialog leads back to that format. |
| `Commands.FindDocument` | src/app/commands.cpp:407-408 | findDocumentByIdentifier finds a document exactly when some document has that identifier, and the document it returns has that identifier. |
| `Commands.WithoutDocumentMembers` | src/app/commands.cpp:150-157 | Closing a document removes exactly the documents with its identifier. |
| `Commands.WithoutDocumentUnique` | src/app/commands.cpp:150-157 | After a document is closed, the remaining identifiers stay unique. |
| `Commands.Application.NewDocument` | src/app/commands.cpp:202-203 | A new document gets an identifier no open document has. It is appended with its name. |
| `Commands.Application.CloseDocument` | src/app/commands.cpp:150-157 | The document list becomes `WithoutDocument(old list, id)`. Identifiers stay unique. |
| `Commands.NewDocumentCommand.constructor` | src/app/commands.cpp:201 | The static counter starts at 0. |
| `Commands.NewDocumentCommand.Execute` | src/app/commands.cpp:199-204 | The counter is pre-incremented modulo 2^32. The new document has a fresh identifier and is named `Anonymous<counter>`. |
| `Commands.AnonymousNamesDistinct` | src/app/commands.cpp:199-204 | Different counter values give different document names. |
| `Commands.FirstAnonymousNames` | src/app/commands.cpp:199-204 | With a fresh counter, the first two new documents are named `Anonymous1` and `Anonymous2`. |
| `Commands.QuotesAround` | src/app/commands.cpp:411 | The quotes of the label and the quotes added by `strFilepathQuoted` combine. A name without whitespace appears once between quotes. A name with whitespace appears between doubled quotes. |
| `Commands.ActionLabel` | src/app/commands.cpp:405-414 | The label is the fallback when the identifier matches no document. Otherwise it is `prefix"name"` when the name has no whitespace, and `prefix""name""` when it has whitespace. |
| `Commands.ActionLabelQuotedOnce` | src/app/commands.cpp:377 | Corrected label: the fallback when no document matches. Otherwise `prefix`, then the name inside exactly one pair of double quotes. |
| `Commands.CloseLabelQuotesTwice` | src/app/commands.cpp:411 | For a document named `my part`, the label as written is `Close ""my part""`. The corrected label is `Close "my part"`. |
| `Commands.ActionLabelsAgreeWithoutSpace` | src/app/commands.cpp:405-414 | The label as written and the corrected label are equal when no document matches or the found name has no whitespace. |
| `Commands.ActionLabelsDifferWithSpace` | src/app/commands.cpp:405-414 | When the found name has whitespace, the label as written is two characters longer than the corrected label, so the two differ. With the lemma above: they differ exactly for names with whitespace. |
| `Commands.CloseCurrentDocumentCommand.constructor` | src/app/commands.cpp:373-393 | updateActionText(-1) in the constructor leaves the label "Close". |
| `Commands.CloseCurrentDocumentCommand.UpdateActionText` | src/app/commands.cpp:405-414 | The action text becomes `ActionLabel("Close ", "Close", documents, docId)`. |
| `Commands.CloseAllDocumentsExceptCurrentCommand.constructor` | src/app/commands.cpp:437-455 | updateActionText(-1) in the constructor leaves the label "Close all except current". |
| `Commands.CloseAllDocumentsExceptCurrentCommand.UpdateActionText` | src/app/commands.cpp:477-486 | The action text becomes `ActionLabel("Close all except ", "Close all except current", documents, docId)`. |
| `Commands.SurvivorsMembers` | src/app/commands.cpp:465-467 | A document survives exactly when it was open and its identifier is the current one. |
| `Commands.CloseAllDocumentsExceptCurrentCommand.Execute` | src/app/commands.cpp:457-470 | The loop closes documents from the snapshot. Afterwards the document list is `Survivors(old list, current)`, and identifiers stay unique. |
| `Commands.SurvivorsIsCurrent` | src/app/commands.cpp:457-470 | With unique identifiers, close-all-except-current leaves exactly the current document when it is open: the current document is never closed. When the current identifier matches no document, every document is closed. |

## Findings

| source | as written | input that shows it | evidently intended | confidence | as-written member | corrected member |
|---|---|---|---|---|---|---|
| src/app/commands.cpp:411 | The label is `Close "%1"` with `strFilepathQuoted(name)` put in for `%1`. That function already adds quotes around a name with whitespace, so the name is quoted twice. The same happens at line 483. | A document named `my part` gets the label `Close ""my part""`. | `Close "my part"`: the name inside one pair of quotes, as in the initial text `Close "%1"` at line 377. | medium; not executed | `Commands.CloseLabelQuotesTwice` | `Commands.ActionLabelQuotedOnce` |

Both command classes keep the label as written (`ActionLabel`), because they model the source.
`ActionLabelQuotedOnce` is the corrected definition, and its quoting property is proved.
`ActionLabelsAgreeWithoutSpace` and `ActionLabelsDifferWithSpace` together show that the two labels differ
exactly when the found name contains whitespace.

## Left out

- task_manager.h is not part of this model: the task manager (`newTask`, `setTitle`, `run`) is a concurrency subsystem, and the import/export work it runs calls the geometry kernel's IO system and meshing.
- `OpenFileNames::get`, `ImportExportSettings` load/save, `QFileDialog`, `fmt::format` and `QElapsedTimer` are left out: they are dialogs, persistence and timing.
- The commands whose `execute` is such glue are left out: open, import, export, close current, close all, recent files, quit, fullscreen. So are their `getEnabledStatus`.
- `tr()` translation is not modelled: the labels are the untranslated English text.
- `Property` base-class internals (`property.h`) are not part of this model. The notifications are modelled only as entries in the ghost log `notifications`.
- `MetaDataArray.IndexOf`: the conversion of the position to `int` is not modelled. The list is assumed to hold fewer than 2^31 entries.
- `Commands.ToUpper`: only ASCII letters are upper-cased. The full Unicode case mapping of `QString::toUpper` is not modelled.
- `Commands.Format`: the source's `IO::Format` is an enum value. The model identifies a format by its identifier and suffixes, so two formats with the same identifier and suffixes are equal. Formats are thus assumed to have distinct identifiers; `ReaderFilterRoundTrip` and `WriterFilterRoundTrip` compare formats by those descriptions.
- `Commands.IsSpace`: this is the fixed set of `QChar::isSpace` code points (TAB..CR, space, NEL, NBSP and the Unicode separators). Characters are code points, not UTF-16 units.
- `Commands.FileFilter`: the source decides whether to add a separator by comparing the suffix's data pointer with the first suffix's. The model uses "not the first suffix" instead. This assumes no two suffixes share storage.
- `Commands.FilterText`: the two `QString::arg` substitutions are modelled as concatenation. An identifier that contains a place marker `%1` or `%2` is not modelled: in the source the second `.arg(filter)` would fill the lowest-numbered marker left, which may be one inside the identifier, and the template's own `%2` would then stay in the output.
- `Commands.Application`: the source of `Application::newDocument`, `closeDocument` and `findDocumentByIdentifier` is not part of this model. Their effect is modelled as appending a document with a fresh identifier, removing a document by identifier, and a search by identifier. The deletion of document widgets and `updateControlsEnabledStatus` are left out.
- `Commands.CloseAllDocumentsExceptCurrentCommand.Execute`: the GUI documents are taken to be the application's documents, one per document and in the same order. The pointer comparison with the current GUI document becomes a comparison of identifiers. The current identifier is a parameter.
- `Commands.NewDocumentCommand`: the counter is a function-local static that all instances share. It is modelled as a field of the one command object. Names are distinct only for distinct counter values, so after 2^32 executions the names repeat.
- The signal connections that call `updateActionText` (`currentDocumentChanged`, `signalDocumentNameChanged`) are not modelled. The caller passes the document identifier instead.
