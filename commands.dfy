/**
 * The string and list helpers of the application's "File" commands: quoting
 * of file paths, file-dialog filters and their reverse lookup, the naming of
 * anonymous documents, the labels of the "Close" actions and the
 * "close all except current" command.
 *
 * The application's document list is abstracted to a sequence of
 * identifier/name pairs; the IO system's formats are values that carry their
 * identifier and their file suffixes.
 */
module Commands {
  import opened Decimal

  datatype Option<T> = None | Some(value: T)

  // ---------------------------------------------------------------------------
  // strFilepathQuoted

  /**
   * QChar::isSpace: the controls TAB..CR, NEL and the Unicode separators
   * (space separators, line separator, paragraph separator).
   */
  predicate IsSpace(c: char)
  {
    || ('\t' <= c <= '\r')
    || c == ' '
    || c == '\U{0085}'
    || c == '\U{00A0}'
    || c == '\U{1680}'
    || ('\U{2000}' <= c <= '\U{200A}')
    || c == '\U{2028}'
    || c == '\U{2029}'
    || c == '\U{202F}'
    || c == '\U{205F}'
    || c == '\U{3000}'
  }

  predicate HasSpace(s: string)
  {
    exists i :: 0 <= i < |s| && IsSpace(s[i])
  }

  /**
   * A path with whitespace is wrapped in double quotes; any other path is
   * returned as it is. Stripping the added quotes gives the path back.
   */
  function Quoted(path: string): (r: string)
    ensures !HasSpace(path) ==> r == path
    ensures HasSpace(path) ==> |r| == |path| + 2 && r[0] == '"' && r[|r| - 1] == '"'
    ensures HasSpace(path) ==> r[1..|r| - 1] == path
  {
    if HasSpace(path) then "\"" + path + "\"" else path
  }

  /** strFilepathQuoted: scans the characters and returns early on the first whitespace. */
  method StrFilepathQuoted(filepath: string) returns (r: string)
    ensures r == Quoted(filepath)
  {
    for i := 0 to |filepath|
      invariant forall j :: 0 <= j < i ==> !IsSpace(filepath[j])
    {
      if IsSpace(filepath[i]) {
        return "\"" + filepath + "\"";
      }
    }
    return filepath;
  }

  // ---------------------------------------------------------------------------
  // fileFilter

  /**
   * An IO format: `FormatUnknown`, or a format with its identifier
   * (IO::formatIdentifier) and its file suffixes (IO::formatFileSuffixes).
   */
  datatype Format = FormatUnknown | KnownFormat(identifier: string, suffixes: seq<string>)

  /** QString::toUpper on the ASCII letters. */
  function ToUpperChar(c: char): char
  {
    if 'a' <= c <= 'z' then (c as int - 32) as char else c
  }

  function ToUpper(s: string): (r: string)
    ensures |r| == |s|
    ensures forall i :: 0 <= i < |s| ==> r[i] == ToUpperChar(s[i])
  {
    seq(|s|, i requires 0 <= i < |s| => ToUpperChar(s[i]))
  }

  /** What one suffix contributes: `*.s`, followed on Unix by ` *.S`. */
  function SuffixPattern(suffix: string, unix: bool): string
  {
    "*." + suffix + (if unix then " *." + ToUpper(suffix) else "")
  }

  function SuffixPatterns(suffixes: seq<string>, unix: bool): (r: seq<string>)
    ensures |r| == |suffixes|
    ensures forall i :: 0 <= i < |suffixes| ==> r[i] == SuffixPattern(suffixes[i], unix)
  {
    seq(|suffixes|, i requires 0 <= i < |suffixes| => SuffixPattern(suffixes[i], unix))
  }

  /**
   * The filter body as the loop accumulates it: each suffix's pattern, with
   * a space before every suffix but the first.
   */
  function FilterBody(suffixes: seq<string>, unix: bool): string
  {
    if |suffixes| == 0 then ""
    else
      var n := |suffixes| - 1;
      FilterBody(suffixes[..n], unix) + (if n > 0 then " " else "") + SuffixPattern(suffixes[n], unix)
  }

  /** Words separated by single spaces, with no leading or trailing space. */
  function JoinWithSpaces(words: seq<string>): string
  {
    if |words| == 0 then ""
    else if |words| == 1 then words[0]
    else words[0] + " " + JoinWithSpaces(words[1..])
  }

  lemma {:induction false} JoinWithSpacesSnoc(words: seq<string>, w: string)
    requires |words| > 0
    ensures JoinWithSpaces(words + [w]) == JoinWithSpaces(words) + " " + w
  {
    if |words| > 1 {
      JoinWithSpacesSnoc(words[1..], w);
      assert (words + [w])[1..] == words[1..] + [w];
    }
  }

  /** The loop's filter body is the suffix patterns joined by single spaces, in order. */
  lemma {:induction false} FilterBodyJoins(suffixes: seq<string>, unix: bool)
    ensures FilterBody(suffixes, unix) == JoinWithSpaces(SuffixPatterns(suffixes, unix))
  {
    if |suffixes| > 1 {
      var n := |suffixes| - 1;
      FilterBodyJoins(suffixes[..n], unix);
      assert SuffixPatterns(suffixes, unix) == SuffixPatterns(suffixes[..n], unix) + [SuffixPattern(suffixes[n], unix)];
      JoinWithSpacesSnoc(SuffixPatterns(suffixes[..n], unix), SuffixPattern(suffixes[n], unix));
    } else if |suffixes| == 1 {
      assert suffixes[..0] == [];
    }
  }

  /**
   * The filter text of a format: "<identifier> files(<body>)", and the empty
   * string exactly for FormatUnknown.
   */
  function FilterText(format: Format, unix: bool): (r: string)
    ensures r == "" <==> format.FormatUnknown?
  {
    if format.FormatUnknown? then ""
    else format.identifier + " files(" + FilterBody(format.suffixes, unix) + ")"
  }

  /** The filter text of a known format lists its suffix patterns joined by single spaces. */
  lemma FilterTextJoins(format: Format, unix: bool)
    requires format.KnownFormat?
    ensures FilterText(format, unix) ==
      format.identifier + " files(" + JoinWithSpaces(SuffixPatterns(format.suffixes, unix)) + ")"
  {
    FilterBodyJoins(format.suffixes, unix);
  }

  /** fileFilter: builds the filter text with one pass over the suffixes. */
  method FileFilter(format: Format, unix: bool) returns (filter: string)
    ensures filter == FilterText(format, unix)
  {
    if format.FormatUnknown? {
      return "";
    }
    var suffixes := format.suffixes;
    var body := "";
    for i := 0 to |suffixes|
      invariant body == FilterBody(suffixes[..i], unix)
    {
      assert suffixes[..i + 1][..i] == suffixes[..i];
      if i > 0 {
        body := body + " ";
      }
      body := body + "*." + suffixes[i];
      if unix {
        body := body + " *." + ToUpper(suffixes[i]);
      }
    }
    assert suffixes[..|suffixes|] == suffixes;
    filter := format.identifier + " files(" + body + ")";
  }

  // ---------------------------------------------------------------------------
  // formatFromFilter

  predicate HasFilter(formats: seq<Format>, filter: string, unix: bool)
  {
    exists i :: 0 <= i < |formats| && FilterText(formats[i], unix) == filter
  }

  /** `i` is the first format in `formats` whose filter text is `filter`. */
  predicate IsFirstWithFilter(formats: seq<Format>, filter: string, unix: bool, i: int)
  {
    && 0 <= i < |formats|
    && FilterText(formats[i], unix) == filter
    && forall j :: 0 <= j < i ==> FilterText(formats[j], unix) != filter
  }

  /** The position of the first format whose filter text is `filter`, or -1. */
  function FindByFilter(formats: seq<Format>, filter: string, unix: bool): (r: int)
    ensures r == -1 <==> !HasFilter(formats, filter, unix)
    ensures r != -1 ==> IsFirstWithFilter(formats, filter, unix, r)
  {
    if |formats| == 0 then -1
    else if FilterText(formats[0], unix) == filter then 0
    else
      var k := FindByFilter(formats[1..], filter, unix);
      assert forall i :: 1 <= i < |formats| ==> formats[i] == formats[1..][i - 1];
      if k == -1 then -1 else k + 1
  }

  /**
   * The format a filter text stands for: the first reader format with that
   * filter, otherwise the first writer format, otherwise FormatUnknown.
   */
  function FormatForFilter(readers: seq<Format>, writers: seq<Format>, filter: string, unix: bool): (r: Format)
    ensures forall i :: IsFirstWithFilter(readers, filter, unix, i) ==> r == readers[i]
    ensures !HasFilter(readers, filter, unix) ==>
      forall i :: IsFirstWithFilter(writers, filter, unix, i) ==> r == writers[i]
    ensures !HasFilter(readers, filter, unix) && !HasFilter(writers, filter, unix) ==> r == FormatUnknown
  {
    var i := FindByFilter(readers, filter, unix);
    if i != -1 then readers[i]
    else
      var j := FindByFilter(writers, filter, unix);
      if j != -1 then writers[j] else FormatUnknown
  }

  /** formatFromFilter: a search over the reader formats, then over the writer formats. */
  method FormatFromFilter(readers: seq<Format>, writers: seq<Format>, filter: string, unix: bool)
    returns (format: Format)
    ensures format == FormatForFilter(readers, writers, filter, unix)
  {
    for i := 0 to |readers|
      invariant forall j :: 0 <= j < i ==> FilterText(readers[j], unix) != filter
    {
      var f := FileFilter(readers[i], unix);
      if filter == f {
        assert IsFirstWithFilter(readers, filter, unix, i);
        return readers[i];
      }
    }
    for i := 0 to |writers|
      invariant forall j :: 0 <= j < i ==> FilterText(writers[j], unix) != filter
    {
      var f := FileFilter(writers[i], unix);
      if filter == f {
        assert IsFirstWithFilter(writers, filter, unix, i);
        return writers[i];
      }
    }
    return FormatUnknown;
  }

  /** No two formats of the list share a filter text. */
  predicate DistinctFilters(formats: seq<Format>, unix: bool)
  {
    forall i, j :: 0 <= i < j < |formats| ==> FilterText(formats[i], unix) != FilterText(formats[j], unix)
  }

  /**
   * Open dialog: when the reader formats have distinct filter texts, the
   * filter chosen for a reader format leads back to that format.
   */
  lemma ReaderFilterRoundTrip(readers: seq<Format>, writers: seq<Format>, unix: bool, k: int)
    requires DistinctFilters(readers, unix)
    requires 0 <= k < |readers|
    ensures FormatForFilter(readers, writers, FilterText(readers[k], unix), unix) == readers[k]
  {
  }

  /**
   * Save dialog: when the writer formats have distinct filter texts and
   * every reader format sharing a writer's filter text is that same format,
   * the filter chosen for a writer format leads back to that format.
   */
  lemma WriterFilterRoundTrip(readers: seq<Format>, writers: seq<Format>, unix: bool, k: int)
    requires DistinctFilters(writers, unix)
    requires 0 <= k < |writers|
    requires forall i :: 0 <= i < |readers| && FilterText(readers[i], unix) == FilterText(writers[k], unix) ==>
      readers[i] == writers[k]
    ensures FormatForFilter(readers, writers, FilterText(writers[k], unix), unix) == writers[k]
  {
  }

  // ---------------------------------------------------------------------------
  // Documents of the application, as far as the commands use them

  /** A document: its identifier (Document::Identifier) and its name. */
  datatype DocumentInfo = DocumentInfo(identifier: int, name: string)

  predicate UniqueIdentifiers(docs: seq<DocumentInfo>)
  {
    forall i, j :: 0 <= i < j < |docs| ==> docs[i].identifier != docs[j].identifier
  }

  /** findDocumentByIdentifier: the document with identifier `id`, if any. */
  function FindDocument(docs: seq<DocumentInfo>, id: int): (r: Option<DocumentInfo>)
    ensures r.Some? <==> exists i :: 0 <= i < |docs| && docs[i].identifier == id
    ensures r.Some? ==> r.value in docs && r.value.identifier == id
  {
    if |docs| == 0 then None
    else if docs[0].identifier == id then Some(docs[0])
    else
      assert forall i :: 1 <= i < |docs| ==> docs[i] == docs[1..][i - 1];
      FindDocument(docs[1..], id)
  }

  /** The documents left once the document `id` is closed, in their order. */
  function WithoutDocument(docs: seq<DocumentInfo>, id: int): seq<DocumentInfo>
  {
    if |docs| == 0 then []
    else (if docs[0].identifier == id then [] else [docs[0]]) + WithoutDocument(docs[1..], id)
  }

  /** Closing the document `id` removes exactly the documents with that identifier. */
  lemma {:induction false} WithoutDocumentMembers(docs: seq<DocumentInfo>, id: int)
    ensures forall d :: d in WithoutDocument(docs, id) <==> d in docs && d.identifier != id
  {
    if |docs| > 0 {
      WithoutDocumentMembers(docs[1..], id);
      assert forall d :: d in docs <==> d == docs[0] || d in docs[1..];
    }
  }

  /** Closing a document keeps the identifiers of the others unique. */
  lemma {:induction false} WithoutDocumentUnique(docs: seq<DocumentInfo>, id: int)
    requires UniqueIdentifiers(docs)
    ensures UniqueIdentifiers(WithoutDocument(docs, id))
  {
    if |docs| > 0 {
      WithoutDocumentUnique(docs[1..], id);
      WithoutDocumentMembers(docs[1..], id);
      var rest := WithoutDocument(docs[1..], id);
      if docs[0].identifier != id {
        forall k | 0 <= k < |rest| ensures rest[k].identifier != docs[0].identifier {
          assert rest[k] in docs[1..];
        }
      }
    }
  }

  /**
   * The application's document list: identifiers are non-negative (-1 means
   * "no document"), unique, and below the next identifier to hand out.
   */
  class Application {
    var documents: seq<DocumentInfo>
    var nextIdentifier: nat

    ghost predicate Valid()
      reads this
    {
      && UniqueIdentifiers(documents)
      && forall i :: 0 <= i < |documents| ==> 0 <= documents[i].identifier < nextIdentifier
    }

    constructor ()
      ensures Valid() && documents == []
    {
      documents := [];
      nextIdentifier := 0;
    }

    /** newDocument followed by setName: a document with a fresh identifier, at the end. */
    method NewDocument(name: string) returns (id: int)
      requires Valid()
      modifies this
      ensures Valid()
      ensures FindDocument(old(documents), id).None?
      ensures documents == old(documents) + [DocumentInfo(id, name)]
    {
      id := nextIdentifier;
      documents := documents + [DocumentInfo(id, name)];
      nextIdentifier := nextIdentifier + 1;
    }

    /** closeDocument: the document `id` leaves the list. */
    method CloseDocument(id: int)
      requires Valid()
      modifies this
      ensures Valid()
      ensures documents == WithoutDocument(old(documents), id)
    {
      WithoutDocumentUnique(documents, id);
      WithoutDocumentMembers(documents, id);
      documents := WithoutDocument(documents, id);
      forall k | 0 <= k < |documents| ensures 0 <= documents[k].identifier < nextIdentifier {
        assert documents[k] in old(documents);
      }
    }
  }

  // ---------------------------------------------------------------------------
  // CommandNewDocument

  /** The counter is an unsigned int: it wraps around at 2^32. */
  const DocSequenceModulus: nat := 0x1_0000_0000

  /** "Anonymous%1" with the sequence number in decimal. */
  function AnonymousName(sequenceId: nat): string
  {
    "Anonymous" + DecimalText(sequenceId)
  }

  /** Different sequence numbers give different document names. */
  lemma AnonymousNamesDistinct(n: nat, m: nat)
    requires n != m
    ensures AnonymousName(n) != AnonymousName(m)
  {
    if AnonymousName(n) == AnonymousName(m) {
      assert AnonymousName(n)[9..] == DecimalText(n);
      assert AnonymousName(m)[9..] == DecimalText(m);
      DecimalTextInjective(n, m);
    }
  }

  /** CommandNewDocument: `docSequenceId` is the function-local static counter of execute(). */
  class NewDocumentCommand {
    var docSequenceId: nat

    ghost predicate Valid()
      reads this
    {
      docSequenceId < DocSequenceModulus
    }

    constructor ()
      ensures Valid() && docSequenceId == 0
    {
      docSequenceId := 0;
    }

    /** execute(): pre-increments the counter and names the new document after it. */
    method Execute(app: Application) returns (id: int)
      requires Valid() && app.Valid()
      modifies this, app
      ensures Valid() && app.Valid()
      ensures docSequenceId == (old(docSequenceId) + 1) % DocSequenceModulus
      ensures FindDocument(old(app.documents), id).None?
      ensures app.documents == old(app.documents) + [DocumentInfo(id, AnonymousName(docSequenceId))]
    {
      docSequenceId := (docSequenceId + 1) % DocSequenceModulus;
      id := app.NewDocument(AnonymousName(docSequenceId));
    }
  }

  /** The first two documents created with a fresh command are "Anonymous1" and "Anonymous2". */
  method FirstAnonymousNames() returns (names: seq<string>)
    ensures names == ["Anonymous1", "Anonymous2"]
  {
    var app := new Application();
    var command := new NewDocumentCommand();
    var first := command.Execute(app);
    assert command.docSequenceId == 1;
    assert DecimalText(1) == "1";
    assert AnonymousName(1) == "Anonymous1";
    assert app.documents == [DocumentInfo(first, "Anonymous1")];
    var second := command.Execute(app);
    assert command.docSequenceId == 2;
    assert DecimalText(2) == "2";
    assert AnonymousName(2) == "Anonymous2";
    assert app.documents == [DocumentInfo(first, "Anonymous1"), DocumentInfo(second, "Anonymous2")];
    names := [app.documents[0].name, app.documents[1].name];
  }

  // ---------------------------------------------------------------------------
  // Labels of the "Close" actions (updateActionText)

  /**
   * The label as the source builds it: `prefix"<strFilepathQuoted(name)>"`
   * for a known document, `fallback` otherwise.
   */
  function ActionLabel(prefix: string, fallback: string, docs: seq<DocumentInfo>, docId: int): (r: string)
    ensures FindDocument(docs, docId).None? ==> r == fallback
    ensures FindDocument(docs, docId).Some? && !HasSpace(FindDocument(docs, docId).value.name) ==>
      r == prefix + "\"" + FindDocument(docs, docId).value.name + "\""
    ensures FindDocument(docs, docId).Some? && HasSpace(FindDocument(docs, docId).value.name) ==>
      r == prefix + "\"\"" + FindDocument(docs, docId).value.name + "\"\""
  {
    match FindDocument(docs, docId)
    case None => fallback
    case Some(doc) =>
      QuotesAround(prefix, doc.name);
      prefix + "\"" + Quoted(doc.name) + "\""
  }

  /** How the quotes of the label and those of `Quoted` combine. */
  lemma QuotesAround(prefix: string, name: string)
    ensures !HasSpace(name) ==> prefix + "\"" + Quoted(name) + "\"" == prefix + "\"" + name + "\""
    ensures HasSpace(name) ==> prefix + "\"" + Quoted(name) + "\"" == prefix + "\"\"" + name + "\"\""
  {
  }

  /** The label with the document name inside exactly one pair of quotes. */
  function ActionLabelQuotedOnce(prefix: string, fallback: string, docs: seq<DocumentInfo>, docId: int): (r: string)
    ensures FindDocument(docs, docId).None? ==> r == fallback
    ensures FindDocument(docs, docId).Some? ==>
      && |r| == |prefix| + |FindDocument(docs, docId).value.name| + 2
      && r[..|prefix|] == prefix
      && r[|prefix|] == '"' && r[|r| - 1] == '"'
      && r[|prefix| + 1..|r| - 1] == FindDocument(docs, docId).value.name
  {
    match FindDocument(docs, docId)
    case None => fallback
    case Some(doc) => prefix + "\"" + doc.name + "\""
  }

  /** A name with a space is quoted twice by the label as written, once by the corrected one. */
  lemma CloseLabelQuotesTwice()
    ensures ActionLabel("Close ", "Close", [DocumentInfo(0, "my part")], 0) == "Close \"\"my part\"\""
    ensures ActionLabelQuotedOnce("Close ", "Close", [DocumentInfo(0, "my part")], 0) == "Close \"my part\""
  {
    var name := "my part";
    var docs := [DocumentInfo(0, name)];
    assert FindDocument(docs, 0) == Some(docs[0]);
    assert HasSpace(name) by {
      assert IsSpace(name[2]);
    }
    assert "Close " + "\"\"" + name + "\"\"" == "Close \"\"my part\"\"";
    assert "Close " + "\"" + name + "\"" == "Close \"my part\"";
  }

  /** Both labels agree on every name without whitespace. */
  lemma ActionLabelsAgreeWithoutSpace(prefix: string, fallback: string, docs: seq<DocumentInfo>, docId: int)
    requires FindDocument(docs, docId).Some? ==> !HasSpace(FindDocument(docs, docId).value.name)
    ensures ActionLabel(prefix, fallback, docs, docId) == ActionLabelQuotedOnce(prefix, fallback, docs, docId)
  {
  }

  /** The labels differ on every found name with whitespace: the one as written is two characters longer. */
  lemma ActionLabelsDifferWithSpace(prefix: string, fallback: string, docs: seq<DocumentInfo>, docId: int)
    requires FindDocument(docs, docId).Some? && HasSpace(FindDocument(docs, docId).value.name)
    ensures |ActionLabel(prefix, fallback, docs, docId)| == |ActionLabelQuotedOnce(prefix, fallback, docs, docId)| + 2
    ensures ActionLabel(prefix, fallback, docs, docId) != ActionLabelQuotedOnce(prefix, fallback, docs, docId)
  {
  }

  /** CommandCloseCurrentDocument, with the text of its action. */
  class CloseCurrentDocumentCommand {
    var actionText: string

    /** The constructor sets the text for "no document" (identifier -1). */
    constructor (app: Application)
      requires app.Valid()
      ensures actionText == "Close"
    {
      actionText := "Close \"%1\"";
      new;
      UpdateActionText(app, -1);
    }

    method UpdateActionText(app: Application, docId: int)
      modifies this
      ensures actionText == ActionLabel("Close ", "Close", app.documents, docId)
    {
      var found := FindDocument(app.documents, docId);
      if found.Some? {
        var quoted := StrFilepathQuoted(found.value.name);
        actionText := "Close \"" + quoted + "\"";
      } else {
        actionText := "Close";
      }
    }
  }

  // ---------------------------------------------------------------------------
  // CommandCloseAllDocumentsExceptCurrent

  /** The documents that close-all-except-current keeps: those whose identifier is `current`. */
  function Survivors(docs: seq<DocumentInfo>, current: int): seq<DocumentInfo>
  {
    if |docs| == 0 then []
    else (if docs[0].identifier == current then [docs[0]] else []) + Survivors(docs[1..], current)
  }

  /** A document survives exactly when it was open and is the current one. */
  lemma {:induction false} SurvivorsMembers(docs: seq<DocumentInfo>, current: int)
    ensures forall d :: d in Survivors(docs, current) <==> d in docs && d.identifier == current
  {
    if |docs| > 0 {
      SurvivorsMembers(docs[1..], current);
      assert forall d :: d in docs <==> d == docs[0] || d in docs[1..];
    }
  }

  /** With unique identifiers, only the current document survives, when it exists. */
  lemma {:induction false} SurvivorsIsCurrent(docs: seq<DocumentInfo>, current: int)
    requires UniqueIdentifiers(docs)
    ensures Survivors(docs, current) ==
      match FindDocument(docs, current)
      case None => []
      case Some(doc) => [doc]
  {
    if |docs| > 0 {
      SurvivorsIsCurrent(docs[1..], current);
      if docs[0].identifier == current {
        assert FindDocument(docs[1..], current).None?;
      }
    }
  }

  lemma {:induction false} SurvivorsAppend(a: seq<DocumentInfo>, b: seq<DocumentInfo>, current: int)
    ensures Survivors(a + b, current) == Survivors(a, current) + Survivors(b, current)
  {
    if |a| > 0 {
      SurvivorsAppend(a[1..], b, current);
      assert (a + b)[1..] == a[1..] + b;
    } else {
      assert a + b == b;
    }
  }

  lemma {:induction false} WithoutAbsentDocument(docs: seq<DocumentInfo>, id: int)
    requires forall i :: 0 <= i < |docs| ==> docs[i].identifier != id
    ensures WithoutDocument(docs, id) == docs
  {
    if |docs| > 0 {
      WithoutAbsentDocument(docs[1..], id);
      assert [docs[0]] + docs[1..] == docs;
    }
  }

  lemma {:induction false} WithoutDocumentAppend(a: seq<DocumentInfo>, b: seq<DocumentInfo>, id: int)
    ensures WithoutDocument(a + b, id) == WithoutDocument(a, id) + WithoutDocument(b, id)
  {
    if |a| > 0 {
      WithoutDocumentAppend(a[1..], b, id);
      assert (a + b)[1..] == a[1..] + b;
    } else {
      assert a + b == b;
    }
  }

  /** One step of close-all-except-current that closes the snapshot's `i`-th document. */
  lemma CloseStep(snapshot: seq<DocumentInfo>, i: int, current: int)
    requires UniqueIdentifiers(snapshot)
    requires 0 <= i < |snapshot| && snapshot[i].identifier != current
    ensures WithoutDocument(Survivors(snapshot[..i], current) + snapshot[i..], snapshot[i].identifier)
      == Survivors(snapshot[..i + 1], current) + snapshot[i + 1..]
  {
    var doc, rest := snapshot[i], snapshot[i + 1..];
    var kept := Survivors(snapshot[..i], current);
    assert snapshot[i..] == [doc] + rest;
    assert snapshot[..i + 1] == snapshot[..i] + [doc];
    SurvivorsAppend(snapshot[..i], [doc], current);
    assert Survivors(snapshot[..i + 1], current) == kept;
    WithoutDocumentAppend(kept, [doc] + rest, doc.identifier);
    SurvivorsMembers(snapshot[..i], current);
    forall k | 0 <= k < |kept| ensures kept[k].identifier != doc.identifier {
      assert kept[k] in kept;
    }
    WithoutAbsentDocument(kept, doc.identifier);
    assert WithoutDocument([doc] + rest, doc.identifier) == WithoutDocument(rest, doc.identifier);
    RestAfterUnique(snapshot, i, rest);
    WithoutAbsentDocument(rest, doc.identifier);
  }

  lemma RestAfterUnique(docs: seq<DocumentInfo>, i: int, rest: seq<DocumentInfo>)
    requires UniqueIdentifiers(docs)
    requires 0 <= i < |docs| && rest == docs[i + 1..]
    ensures forall k :: 0 <= k < |rest| ==> rest[k].identifier != docs[i].identifier
  {
  }

  /** One step of close-all-except-current that passes over the current document. */
  lemma KeepStep(snapshot: seq<DocumentInfo>, i: int, current: int)
    requires 0 <= i < |snapshot| && snapshot[i].identifier == current
    ensures Survivors(snapshot[..i], current) + snapshot[i..]
      == Survivors(snapshot[..i + 1], current) + snapshot[i + 1..]
  {
    var doc := snapshot[i];
    assert snapshot[i..] == [doc] + snapshot[i + 1..];
    assert snapshot[..i + 1] == snapshot[..i] + [doc];
    SurvivorsAppend(snapshot[..i], [doc], current);
  }

  /** CommandCloseAllDocumentsExceptCurrent, with the text of its action. */
  class CloseAllDocumentsExceptCurrentCommand {
    var actionText: string

    constructor (app: Application)
      requires app.Valid()
      ensures actionText == "Close all except current"
    {
      actionText := "Close all except current";
      new;
      UpdateActionText(app, -1);
    }

    method UpdateActionText(app: Application, docId: int)
      modifies this
      ensures actionText == ActionLabel("Close all except ", "Close all except current", app.documents, docId)
    {
      var found := FindDocument(app.documents, docId);
      if found.Some? {
        var quoted := StrFilepathQuoted(found.value.name);
        actionText := "Close all except \"" + quoted + "\"";
      } else {
        actionText := "Close all except current";
      }
    }

    /**
     * execute(): takes a snapshot of the document list, then closes every
     * document of the snapshot that is not the current one.
     */
    method Execute(app: Application, currentDocument: int)
      requires app.Valid()
      modifies app
      ensures app.Valid()
      ensures app.documents == Survivors(old(app.documents), currentDocument)
    {
      var snapshot := app.documents;
      for i := 0 to |snapshot|
        invariant app.Valid() && UniqueIdentifiers(snapshot)
        invariant app.documents == Survivors(snapshot[..i], currentDocument) + snapshot[i..]
      {
        var doc := snapshot[i];
        if doc.identifier != currentDocument {
          CloseStep(snapshot, i, currentDocument);
          app.CloseDocument(doc.identifier);
        } else {
          KeepStep(snapshot, i, currentDocument);
        }
      }
      assert snapshot[..|snapshot|] == snapshot;
    }
  }
}
