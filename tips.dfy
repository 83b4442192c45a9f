/**
 * The progress tips shown in the steps of a run (app/tips.py): a summary of
 * the extracted search intent, and the number of retrieved articles.
 */
module Tips {
  import opened Wrappers
  import opened Strings

  /** The date filter of the search intent; each end is a nullable string. */
  datatype DateRange = DateRange(startDate: Option<string>, endDate: Option<string>)

  datatype Author = Author(name: string)

  /** The search intent returned by the metadata call, already decoded. */
  datatype Metadata = Metadata(question: string, dateRange: DateRange, authors: seq<Author>)

  /** Python truthiness of a nullable string: neither None nor empty. */
  predicate Truthy(d: Option<string>)
  {
    d.Some? && d.value != ""
  }

  const SearchIcon: string := "\U{1F50D}"
  const DateIcon: string := "\U{23F3}"
  const AuthorIcon: string := "\U{1F58A}\U{FE0F}"
  const WrittenBy: string := AuthorIcon + " Written by "
  const RetrievedPrefix: string := SearchIcon + " Retrieved "
  const RetrievedSuffix: string := " articles."

  function SearchText(question: string): string
  {
    SearchIcon + " Searched \"" + question + "\""
  }

  function DateText(r: DateRange): string
  {
    if Truthy(r.startDate) && Truthy(r.endDate) then
      DateIcon + " From " + r.startDate.value + " to " + r.endDate.value + "."
    else if Truthy(r.startDate) then
      DateIcon + " After " + r.startDate.value + "."
    else if Truthy(r.endDate) then
      DateIcon + " Until " + r.endDate.value
    else
      ""
  }

  function Names(authors: seq<Author>): seq<string>
  {
    seq(|authors|, i requires 0 <= i < |authors| => authors[i].name)
  }

  function AuthorText(authors: seq<Author>): string
  {
    var names := Names(authors);
    if |authors| == 1 then
      WrittenBy + names[0]
    else if |authors| > 1 then
      WrittenBy + Join(names[..|names| - 1], ", ") + (if |names| > 2 then "," else "")
        + " and " + names[|names| - 1]
    else
      ""
  }

  /** `filter(lambda x: len(x) > 0, blocks)` */
  function NonEmpty(blocks: seq<string>): (r: seq<string>)
    ensures |r| <= |blocks|
    ensures forall i :: 0 <= i < |r| ==> r[i] != ""
  {
    if blocks == [] then []
    else if blocks[0] == "" then NonEmpty(blocks[1..])
    else [blocks[0]] + NonEmpty(blocks[1..])
  }

  function TextBlocks(m: Metadata): seq<string>
  {
    NonEmpty([SearchText(m.question), DateText(m.dateRange), AuthorText(m.authors)])
  }

  /** `tip_metadata`: the non-empty blocks, one per line; the search block always leads. */
  function TipMetadata(m: Metadata): (tip: string)
    ensures SearchText(m.question) <= tip
  {
    var blocks := TextBlocks(m);
    assert blocks[0] == SearchText(m.question);
    assert |blocks| > 1 ==> Join(blocks, "\n") == blocks[0] + ("\n" + Join(blocks[1..], "\n"));
    Join(blocks, "\n")
  }

  /** `tip_search`: the count printed between the fixed words reads back as the number of sources. */
  function TipSearch<T>(sources: seq<T>): (tip: string)
    ensures |tip| > |RetrievedPrefix| + |RetrievedSuffix|
    ensures tip[..|RetrievedPrefix|] == RetrievedPrefix
    ensures tip[|tip| - |RetrievedSuffix|..] == RetrievedSuffix
    ensures var count := tip[|RetrievedPrefix|..|tip| - |RetrievedSuffix|];
            AllDigits(count) && DecimalValue(count) == |sources|
  {
    var digits := NatToString(|sources|);
    var tip := RetrievedPrefix + digits + RetrievedSuffix;
    assert tip[|RetrievedPrefix|..|tip| - |RetrievedSuffix|] == digits;
    DecimalValueOfNatToString(|sources|);
    tip
  }

  /**
   * The date line is present exactly when a date is set, and always opens
   * with the hourglass. It ends in a full stop exactly when a start date is
   * set, unless the end date itself ends in one.
   */
  lemma DateTextShape(r: DateRange)
    ensures DateText(r) == "" <==> !Truthy(r.startDate) && !Truthy(r.endDate)
    ensures DateText(r) != "" ==> DateText(r)[..2] == DateIcon + " "
    ensures DateText(r) != "" && (!Truthy(r.endDate) || r.endDate.value[|r.endDate.value| - 1] != '.') ==>
      (DateText(r)[|DateText(r)| - 1] == '.' <==> Truthy(r.startDate))
  {
  }

  /**
   * An English list written out independently: one name alone, two joined by
   * "and", three or more separated by commas with a serial comma before "and".
   */
  function EnglishList(names: seq<string>): string
    requires |names| >= 1
  {
    if |names| == 1 then names[0]
    else if |names| == 2 then names[0] + " and " + names[1]
    else SerialList(names)
  }

  function SerialList(names: seq<string>): string
    requires |names| >= 2
  {
    if |names| == 2 then names[0] + ", and " + names[1]
    else names[0] + ", " + SerialList(names[1..])
  }

  lemma {:induction false} JoinThenSerialComma(names: seq<string>)
    requires |names| >= 2
    ensures Join(names[..|names| - 1], ", ") + ", and " + names[|names| - 1] == SerialList(names)
  {
    var n := |names|;
    if n > 2 {
      var rest := names[1..];
      JoinThenSerialComma(rest);
      assert names[..n - 1][1..] == rest[..|rest| - 1];
      assert rest[|rest| - 1] == names[n - 1];
      assert Join(names[..n - 1], ", ") == names[0] + ", " + Join(rest[..|rest| - 1], ", ");
    }
  }

  /** The author line reads as an English list of the names, after the "Written by" icon. */
  lemma AuthorTextIsEnglishList(authors: seq<Author>)
    ensures authors == [] ==> AuthorText(authors) == ""
    ensures authors != [] ==> AuthorText(authors) == WrittenBy + EnglishList(Names(authors))
  {
    var names := Names(authors);
    if |names| > 2 {
      JoinThenSerialComma(names);
      assert "," + " and " == ", and ";
    } else if |names| == 2 {
      assert names[..1] == [names[0]];
    }
  }

  /** No field of the intent contains a line break. */
  predicate SingleLine(m: Metadata)
  {
    && '\n' !in m.question
    && (m.dateRange.startDate.Some? ==> '\n' !in m.dateRange.startDate.value)
    && (m.dateRange.endDate.Some? ==> '\n' !in m.dateRange.endDate.value)
    && forall i :: 0 <= i < |m.authors| ==> '\n' !in m.authors[i].name
  }

  /** The blocks are the search line, then the date line and the author line when not empty. */
  lemma TextBlocksShape(m: Metadata)
    ensures TextBlocks(m) == [SearchText(m.question)]
      + (if DateText(m.dateRange) != "" then [DateText(m.dateRange)] else [])
      + (if AuthorText(m.authors) != "" then [AuthorText(m.authors)] else [])
  {
    var s, d, a := SearchText(m.question), DateText(m.dateRange), AuthorText(m.authors);
    assert s != "" by { assert s[0] == SearchIcon[0]; }
    assert [s, d, a][1..] == [d, a] && [d, a][1..] == [a] && [a][1..] == [];
    assert NonEmpty([a]) == if a != "" then [a] else [];
    assert NonEmpty([d, a]) == (if d != "" then [d] else []) + NonEmpty([a]);
  }

  /** The author line is empty exactly when there are no authors, and never holds a line break. */
  lemma AuthorTextSingleLine(m: Metadata)
    requires SingleLine(m)
    ensures '\n' !in AuthorText(m.authors)
    ensures AuthorText(m.authors) == "" <==> m.authors == []
  {
    var names := Names(m.authors);
    if |names| > 1 {
      JoinKeepsOut(names[..|names| - 1], ", ", '\n');
    }
    if names != [] {
      assert AuthorText(m.authors)[0] == WrittenBy[0];
    }
  }

  /**
   * Read line by line, a tip has one to three non-empty lines: the search
   * line first, then the date line when either date is set, then the author
   * line last when there are authors.
   */
  lemma TipMetadataLines(m: Metadata)
    requires SingleLine(m)
    ensures var lines := Split(TipMetadata(m), '\n');
      && 1 <= |lines| <= 3
      && lines[0] == SearchText(m.question)
      && (forall i :: 0 <= i < |lines| ==> lines[i] != "")
      && |lines| == 1 + (if Truthy(m.dateRange.startDate) || Truthy(m.dateRange.endDate) then 1 else 0)
                      + (if m.authors != [] then 1 else 0)
      && (Truthy(m.dateRange.startDate) || Truthy(m.dateRange.endDate) ==> lines[1] == DateText(m.dateRange))
      && (m.authors != [] ==> lines[|lines| - 1] == AuthorText(m.authors))
  {
    var s, d, a := SearchText(m.question), DateText(m.dateRange), AuthorText(m.authors);
    assert '\n' !in s;
    assert '\n' !in d;
    AuthorTextSingleLine(m);
    DateTextShape(m.dateRange);
    TextBlocksShape(m);
    var blocks := TextBlocks(m);
    assert forall i :: 0 <= i < |blocks| ==> '\n' !in blocks[i];
    SplitJoin(blocks, '\n');
  }
}
