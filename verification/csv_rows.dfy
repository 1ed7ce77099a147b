/** The row shaping of `save_as_csv`: a record becomes six cells in the header's column order,
    with its tag list joined by ", ". The CSV writer itself (quoting, the byte-order mark) and
    the file are not modelled. */
module CsvRows {
  import opened Wrappers
  import opened QuotePage

  /** The header, in column order. */
  const Fieldnames: seq<string> := ["quote_text", "author_name", "tags", "author_full_name", "author_born_date", "author_born_location"]

  const TagSeparator: string := ", "

  /** The `tags` entry of a record dictionary: a list of strings, some other value (carried as
      its `str()` rendering), or no entry at all (`get` then defaults to an empty list). */
  datatype TagsValue = TagList(items: seq<string>) | OtherValue(rendered: string) | NoTags

  /** A record dictionary as `save_as_csv` receives it. */
  datatype QuoteDict = QuoteDict(
    quoteText: string,
    authorName: string,
    tags: TagsValue,
    authorFullName: Option<string>,
    authorBornDate: Option<string>,
    authorBornLocation: Option<string>)

  /** The dictionary of a scraped record: its tags are always a list. */
  function AsDict(r: Record): QuoteDict {
    QuoteDict(r.quoteText, r.authorName, TagList(r.tags), r.authorFullName, r.authorBornDate, r.authorBornLocation)
  }

  /** `", ".join(tags)`. */
  function JoinTags(tags: seq<string>): string {
    if tags == [] then ""
    else if |tags| == 1 then tags[0]
    else tags[0] + TagSeparator + JoinTags(tags[1..])
  }

  /** The `tags` cell: a list is joined, any other value is rendered with `str()`. */
  function TagsCell(v: TagsValue): string {
    match v
    case TagList(items) => JoinTags(items)
    case OtherValue(rendered) => rendered
    case NoTags => JoinTags([])
  }

  /** A CSV cell: absent fields are written as empty cells by the writer. */
  type Cell = Option<string>

  /** The value a record dictionary holds under a column name, as the writer looks it up; a name
      the dictionary lacks reads as an empty cell. */
  function Column(q: QuoteDict, name: string): Cell {
    if name == "quote_text" then Some(q.quoteText)
    else if name == "author_name" then Some(q.authorName)
    else if name == "tags" then Some(TagsCell(q.tags))
    else if name == "author_full_name" then q.authorFullName
    else if name == "author_born_date" then q.authorBornDate
    else if name == "author_born_location" then q.authorBornLocation
    else None
  }

  /** The row written for one record dictionary: each header column's cell is the dictionary's
      value under that column's name. */
  function ShapeRow(q: QuoteDict): (row: seq<Cell>)
    ensures |row| == |Fieldnames|
    ensures forall i :: 0 <= i < |Fieldnames| ==> row[i] == Column(q, Fieldnames[i])
    ensures row[0] == Some(q.quoteText) && row[1] == Some(q.authorName)
    ensures q.tags.TagList? ==> row[2] == Some(JoinTags(q.tags.items))
    ensures q.tags.OtherValue? ==> row[2] == Some(q.tags.rendered)
    ensures q.tags.NoTags? ==> row[2] == Some("")
    ensures row[3] == q.authorFullName && row[4] == q.authorBornDate && row[5] == q.authorBornLocation
  {
    [Some(q.quoteText), Some(q.authorName), Some(TagsCell(q.tags)),
     q.authorFullName, q.authorBornDate, q.authorBornLocation]
  }

  /** Splits a `tags` cell at each ", ": the inverse of `JoinTags` for lists whose tags hold no
      comma (the empty cell reads back as no tags). */
  function SplitTags(s: string): seq<string> {
    if s == "" then [] else SplitPieces(s)
  }

  /** The pieces of `s` between occurrences of ", "; never empty. */
  function SplitPieces(s: string): (pieces: seq<string>)
    ensures |pieces| >= 1
  {
    if |s| == 0 then [""]
    else if |s| >= 2 && s[0] == ',' && s[1] == ' ' then [""] + SplitPieces(s[2..])
    else
      var rest := SplitPieces(s[1..]);
      [[s[0]] + rest[0]] + rest[1..]
  }

  predicate NoComma(t: string) {
    forall i :: 0 <= i < |t| ==> t[i] != ','
  }

  /** A comma-free piece followed by the separator splits off as a piece of its own. */
  lemma {:induction false} SplitPiecesPrefix(t: string, rest: string)
    requires NoComma(t)
    ensures SplitPieces(t + TagSeparator + rest) == [t] + SplitPieces(rest)
    decreases |t|
  {
    if t == [] {
      assert t + TagSeparator + rest == TagSeparator + rest;
      assert (TagSeparator + rest)[2..] == rest;
    } else {
      var s := t + TagSeparator + rest;
      assert s[0] == t[0] && s[0] != ',';
      assert s[1..] == t[1..] + TagSeparator + rest;
      SplitPiecesPrefix(t[1..], rest);
      assert [t[0]] + t[1..] == t;
    }
  }

  /** A comma-free string is a single piece. */
  lemma {:induction false} SplitPiecesSingle(t: string)
    requires NoComma(t)
    ensures SplitPieces(t) == [t]
    decreases |t|
  {
    if t != [] {
      SplitPiecesSingle(t[1..]);
      assert [t[0]] + t[1..] == t;
    }
  }

  /** Joining then splitting gives back any tag list whose tags hold no comma, except the one
      list `[""]`, whose join is indistinguishable from that of the empty list. */
  lemma {:induction false} SplitJoinTags(tags: seq<string>)
    requires forall i :: 0 <= i < |tags| ==> NoComma(tags[i])
    requires tags != [""]
    ensures SplitTags(JoinTags(tags)) == tags
    decreases |tags|
  {
    if |tags| == 1 {
      SplitPiecesSingle(tags[0]);
    } else if |tags| > 1 {
      SplitPiecesPrefix(tags[0], JoinTags(tags[1..]));
      if tags[1..] == [""] {
        assert JoinTags(tags[1..]) == "";
      } else {
        SplitJoinTags(tags[1..]);
      }
      assert tags == [tags[0]] + tags[1..];
    }
  }

  /** Reads a shaped row back as a record. */
  function RowToRecord(row: seq<Cell>): Record
    requires |row| == |Fieldnames| && row[0].Some? && row[1].Some? && row[2].Some?
  {
    Record(row[0].value, row[1].value, SplitTags(row[2].value), row[3], row[4], row[5])
  }

  /** The row of a scraped record reads back as that record, when its tags hold no comma. */
  lemma CsvRowRoundTrip(r: Record)
    requires forall i :: 0 <= i < |r.tags| ==> NoComma(r.tags[i])
    requires r.tags != [""]
    ensures RowToRecord(ShapeRow(AsDict(r))) == r
  {
    SplitJoinTags(r.tags);
  }

  /** The tags of the repository's test quote. */
  lemma JoinTestTags()
    ensures JoinTags(["tag1", "tag2"]) == "tag1, tag2"
  {
  }
}
