/** The pure string work of the CSV product import: header normalisation,
    price cleaning, and turning a parsed row into a product draft. Splitting
    the file into lines and cells (separator ';') is done by the CSV parser
    and is not part of this model: a file arrives as a header line and
    records of cells. */
module CsvImport {
  import opened Schema
  import opened Text

  // ---- Header normalisation ----

  /** `replace(/^\U{FEFF}/, '')`: remove one leading byte-order mark. */
  function StripBom(s: string): (r: string)
    ensures |s| > 0 && s[0] == '\U{FEFF}' ==> r == s[1..]
    ensures !(|s| > 0 && s[0] == '\U{FEFF}') ==> r == s
  {
    if |s| > 0 && s[0] == '\U{FEFF}' then s[1..] else s
  }

  /** The header mapping given to the parser: strip one BOM, trim, lower-case. */
  function NormalizeHeader(h: string): (r: string) {
    Lower(Trim(StripBom(h)))
  }

  /** A normalised header has no whitespace (a BOM included) at either end and
      no upper-case ASCII letter. Because trim also removes U+FEFF, every
      leading BOM is gone, not only the first. */
  lemma NormalizedHeaderShape(h: string)
    ensures var r := NormalizeHeader(h);
      && (r == [] || (!IsJsSpace(r[0]) && !IsJsSpace(r[|r| - 1])))
      && (r == [] || r[0] != '\U{FEFF}')
      && forall k :: 0 <= k < |r| ==> !('A' <= r[k] <= 'Z')
  {
    var t := Trim(StripBom(h));
    TrimShape(StripBom(h));
    LowerKeepsSpaces(t);
  }

  /** Normalising a header twice is the same as once. */
  lemma {:induction false} NormalizeHeaderIdempotent(h: string)
    ensures NormalizeHeader(NormalizeHeader(h)) == NormalizeHeader(h)
  {
    var r := NormalizeHeader(h);
    NormalizedHeaderShape(h);
    assert StripBom(r) == r;
    TrimOfTrimmed(r);
    LowerOfLower(r);
  }

  // ---- Price cleaning ----

  /** The characters `/[^\d.,-]/g` keeps: ASCII digits, '.', ',' and '-'. */
  predicate IsPriceChar(c: char) {
    ('0' <= c <= '9') || c == '.' || c == ',' || c == '-'
  }

  /** `replace(/[^\d.,-]/g, '')`: delete every other character. Every kept
      character occurs exactly as often as in the input. */
  function KeepPriceChars(s: string): (r: string)
    ensures |r| <= |s|
    ensures forall k :: 0 <= k < |r| ==> IsPriceChar(r[k])
    ensures forall c :: IsPriceChar(c) ==> Occurrences(r, c) == Occurrences(s, c)
  {
    if s == [] then []
    else
      var rest := KeepPriceChars(s[1..]);
      if IsPriceChar(s[0]) then
        assert ([s[0]] + rest)[1..] == rest;
        [s[0]] + rest
      else rest
  }

  /** Cleaning a concatenation cleans each part: the kept characters stay in
      their input order. */
  lemma {:induction false} KeepPriceCharsAppend(a: string, b: string)
    ensures KeepPriceChars(a + b) == KeepPriceChars(a) + KeepPriceChars(b)
  {
    if a == [] {
      assert a + b == b;
    } else {
      assert (a + b)[1..] == a[1..] + b;
      KeepPriceCharsAppend(a[1..], b);
    }
  }

  /** One character is kept exactly when it is a price character. */
  lemma KeepPriceCharsOne(c: char)
    ensures KeepPriceChars([c]) == if IsPriceChar(c) then [c] else []
  {
    assert [c][1..] == [];
  }

  /** The position of the first `c` in `s`. */
  function IndexOf(s: string, c: char): (i: nat)
    requires c in s
    ensures i < |s| && s[i] == c
    ensures forall k :: 0 <= k < i ==> s[k] != c
  {
    if s[0] == c then 0 else 1 + IndexOf(s[1..], c)
  }

  /** `replace(',', '.')`: a string pattern replaces only its first occurrence. */
  function ReplaceFirstComma(s: string): (r: string) {
    if ',' in s then
      var i := IndexOf(s, ',');
      s[..i] + "." + s[i + 1..]
    else s
  }

  /** The price text of a CSV row after cleaning. */
  function CleanPrice(s: string): (r: string) {
    ReplaceFirstComma(KeepPriceChars(s))
  }

  /** Number of occurrences of `c` in `s`. */
  function Occurrences(s: string, c: char): (n: nat)
    ensures n <= |s|
  {
    if s == [] then 0 else (if s[0] == c then 1 else 0) + Occurrences(s[1..], c)
  }

  lemma {:induction false} OccurrencesAppend(a: string, b: string, c: char)
    ensures Occurrences(a + b, c) == Occurrences(a, c) + Occurrences(b, c)
  {
    if a == [] {
      assert a + b == b;
    } else {
      assert a + b == [a[0]] + (a[1..] + b);
      OccurrencesAppend(a[1..], b, c);
    }
  }

  lemma {:induction false} OccurrencesNone(s: string, c: char)
    requires c !in s
    ensures Occurrences(s, c) == 0
  {
    if s != [] {
      assert s[1..] == s[1..];
      OccurrencesNone(s[1..], c);
    }
  }

  /** Replacing the first comma changes that one character into '.', and
      nothing else: one comma fewer, one point more, when there was a comma;
      the string itself when there was none. */
  lemma {:induction false} ReplaceFirstCommaShape(s: string)
    ensures var r := ReplaceFirstComma(s);
      && |r| == |s|
      && (',' in s ==>
            r[IndexOf(s, ',')] == '.' && forall k :: 0 <= k < |s| && k != IndexOf(s, ',') ==> r[k] == s[k])
      && (',' !in s ==> r == s)
      && Occurrences(r, ',') == Occurrences(s, ',') - (if ',' in s then 1 else 0)
      && Occurrences(r, '.') == Occurrences(s, '.') + (if ',' in s then 1 else 0)
  {
    var r := ReplaceFirstComma(s);
    if ',' in s {
      var i := IndexOf(s, ',');
      var pre, post := s[..i], s[i + 1..];
      assert s == pre + [','] + post;
      assert r == pre + ['.'] + post;
      OccurrencesAppend(pre + [','], post, ',');
      OccurrencesAppend(pre, [','], ',');
      OccurrencesAppend(pre + ['.'], post, ',');
      OccurrencesAppend(pre, ['.'], ',');
      OccurrencesAppend(pre + [','], post, '.');
      OccurrencesAppend(pre, [','], '.');
      OccurrencesAppend(pre + ['.'], post, '.');
      OccurrencesAppend(pre, ['.'], '.');
    }
  }

  /** A cleaned price is the input's kept characters in their order with the
      first comma among them turned into a point: it holds only digits, '.',
      ',' and '-'; each digit and '-' of the input survives; of the input's
      commas all but the first survive, and the first became a point. */
  lemma CleanPriceShape(s: string)
    ensures var kept, r := KeepPriceChars(s), CleanPrice(s);
      && |r| == |kept|
      && (',' in kept ==>
            r[IndexOf(kept, ',')] == '.' && forall k :: 0 <= k < |kept| && k != IndexOf(kept, ',') ==> r[k] == kept[k])
      && (',' !in kept ==> r == kept)
      && (forall k :: 0 <= k < |r| ==> IsPriceChar(r[k]))
      && (forall c :: IsPriceChar(c) && c != ',' && c != '.' ==> Occurrences(r, c) == Occurrences(s, c))
      && Occurrences(r, ',') == Occurrences(s, ',') - (if Occurrences(s, ',') > 0 then 1 else 0)
      && Occurrences(r, '.') == Occurrences(s, '.') + (if Occurrences(s, ',') > 0 then 1 else 0)
  {
    var kept := KeepPriceChars(s);
    var r := CleanPrice(s);
    ReplaceFirstCommaShape(kept);
    if ',' !in kept {
      OccurrencesNone(kept, ',');
    } else {
      var i := IndexOf(kept, ',');
      OccurrencesPositive(kept, i, ',');
    }
    forall c | IsPriceChar(c) && c != ',' && c != '.' ensures Occurrences(r, c) == Occurrences(s, c) {
      ReplaceKeepsOthers(kept, c);
    }
  }

  lemma {:induction false} OccurrencesPositive(s: string, i: nat, c: char)
    requires i < |s| && s[i] == c
    ensures Occurrences(s, c) > 0
  {
    if i > 0 {
      OccurrencesPositive(s[1..], i - 1, c);
    }
  }

  /** Replacing the first comma does not change how often any other
      character than ',' and '.' occurs. */
  lemma ReplaceKeepsOthers(s: string, c: char)
    requires c != ',' && c != '.'
    ensures Occurrences(ReplaceFirstComma(s), c) == Occurrences(s, c)
  {
    if ',' in s {
      var i := IndexOf(s, ',');
      var pre, post := s[..i], s[i + 1..];
      assert s == pre + [','] + post;
      assert ReplaceFirstComma(s) == pre + ['.'] + post;
      OccurrencesAppend(pre + [','], post, c);
      OccurrencesAppend(pre, [','], c);
      OccurrencesAppend(pre + ['.'], post, c);
      OccurrencesAppend(pre, ['.'], c);
    }
  }

  // ---- Rows ----

  /** A file as the parser delivers it: the raw header cells and the records. */
  datatype CsvTable = CsvTable(header: seq<string>, records: seq<seq<string>>)

  /** The header line after the parser's header mapping. */
  function Keys(header: seq<string>): (keys: seq<string>)
    ensures |keys| == |header|
    ensures forall i :: 0 <= i < |header| ==> keys[i] == NormalizeHeader(header[i])
  {
    seq(|header|, i requires 0 <= i < |header| => NormalizeHeader(header[i]))
  }

  /** The last of the first `n` columns whose key is `key`, or -1. */
  function LastColumn(keys: seq<string>, n: nat, key: string): (i: int)
    requires n <= |keys|
    ensures -1 <= i < n
    ensures i >= 0 ==> keys[i] == key
    ensures forall j :: i < j < n ==> keys[j] != key
  {
    if n == 0 then -1
    else if keys[n - 1] == key then n - 1
    else LastColumn(keys, n - 1, key)
  }

  /** The row object for the first `n` cells of a record: each cell under its
      column's key; a later column with the same key wins. */
  function RowPrefix(keys: seq<string>, record: seq<string>, n: nat): (row: map<string, string>)
    requires n <= |keys| && n <= |record|
    ensures forall key :: key in row <==> LastColumn(keys, n, key) >= 0
    ensures forall key :: key in row ==> row[key] == record[LastColumn(keys, n, key)]
  {
    if n == 0 then map[]
    else
      var prev := RowPrefix(keys, record, n - 1);
      prev[keys[n - 1] := record[n - 1]]
  }

  /** The row object the parser emits for one record: cells beyond the header
      or headers beyond the cells are not present. */
  function RowOf(header: seq<string>, record: seq<string>): map<string, string> {
    var n := if |header| < |record| then |header| else |record|;
    RowPrefix(Keys(header), record, n)
  }

  /** JavaScript truthiness of `row[key]`: present and non-empty. */
  predicate Truthy(row: map<string, string>, key: string) {
    key in row && row[key] != ""
  }

  /** `if (row.name && row.price)`. The name is tested before trimming. */
  predicate Accepts(row: map<string, string>) {
    Truthy(row, "name") && Truthy(row, "price")
  }

  /** The product an accepted row becomes, before its price is read as a number. */
  datatype Draft = Draft(
    name: string,
    description: string,
    priceText: string,
    url: string,
    sellerId: Id,
    sold: bool)

  /** What an accepted row yields: the trimmed name, description and url
      trimmed or "" when absent, the cleaned price text, the caller as
      seller, and not sold. */
  function DraftOf(row: map<string, string>, seller: Id): (d: Draft)
    requires Accepts(row)
    ensures d.name == Trim(row["name"]) && d.priceText == CleanPrice(row["price"])
    ensures d.description == (if "description" in row then Trim(row["description"]) else "")
    ensures d.url == (if "url" in row then Trim(row["url"]) else "")
    ensures d.sellerId == seller && !d.sold
  {
    Draft(
      Trim(row["name"]),
      if Truthy(row, "description") then Trim(row["description"]) else "",
      CleanPrice(row["price"]),
      if Truthy(row, "url") then Trim(row["url"]) else "",
      seller,
      false)
  }

  /** The row objects of all records of a file. */
  function Rows(table: CsvTable): (rows: seq<map<string, string>>)
    ensures |rows| == |table.records|
    ensures forall k :: 0 <= k < |rows| ==> rows[k] == RowOf(table.header, table.records[k])
  {
    seq(|table.records|, k requires 0 <= k < |table.records| => RowOf(table.header, table.records[k]))
  }

  /** The drafts of the accepted rows, in file order. */
  function AcceptedDrafts(rows: seq<map<string, string>>, seller: Id): (r: seq<Draft>)
    ensures |r| <= |rows|
  {
    if rows == [] then []
    else
      var last := rows[|rows| - 1];
      AcceptedDrafts(rows[..|rows| - 1], seller) + (if Accepts(last) then [DraftOf(last, seller)] else [])
  }

  /** Importing a concatenation of rows imports each part in turn: drafts
      keep the file order of their rows. */
  lemma {:induction false} AcceptedDraftsAppend(a: seq<map<string, string>>, b: seq<map<string, string>>, seller: Id)
    ensures AcceptedDrafts(a + b, seller) == AcceptedDrafts(a, seller) + AcceptedDrafts(b, seller)
  {
    if b == [] {
      assert a + b == a;
    } else {
      var init := b[..|b| - 1];
      assert (a + b)[..|a + b| - 1] == a + init;
      assert (a + b)[|a + b| - 1] == b[|b| - 1];
      AcceptedDraftsAppend(a, init, seller);
    }
  }

  /** One row yields its draft exactly when it is accepted. */
  lemma AcceptedDraftsOne(row: map<string, string>, seller: Id)
    ensures AcceptedDrafts([row], seller) == if Accepts(row) then [DraftOf(row, seller)] else []
  {
    assert [row][..0] == [];
  }

  /** An import yields no draft exactly when no row is accepted. */
  lemma {:induction false} NoDraftsIffNoAcceptedRow(rows: seq<map<string, string>>, seller: Id)
    ensures AcceptedDrafts(rows, seller) == [] <==> forall k :: 0 <= k < |rows| ==> !Accepts(rows[k])
  {
    if rows != [] {
      var init := rows[..|rows| - 1];
      NoDraftsIffNoAcceptedRow(init, seller);
      assert forall k :: 0 <= k < |init| ==> init[k] == rows[k];
    }
  }

  /** Every draft of an import has the caller as seller and is not sold, and
      each is the draft of one accepted row. */
  lemma {:induction false} DraftsComeFromAcceptedRows(rows: seq<map<string, string>>, seller: Id)
    ensures forall d :: d in AcceptedDrafts(rows, seller) ==>
      d.sellerId == seller && !d.sold && exists k :: 0 <= k < |rows| && Accepts(rows[k]) && d == DraftOf(rows[k], seller)
  {
    if rows != [] {
      var init := rows[..|rows| - 1];
      DraftsComeFromAcceptedRows(init, seller);
      assert forall k :: 0 <= k < |init| ==> init[k] == rows[k];
    }
  }

  /** The parser's "data" callback: push the draft of every accepted row. */
  method CollectDrafts(rows: seq<map<string, string>>, seller: Id) returns (drafts: seq<Draft>)
    ensures drafts == AcceptedDrafts(rows, seller)
  {
    drafts := [];
    var k := 0;
    while k < |rows|
      invariant 0 <= k <= |rows|
      invariant drafts == AcceptedDrafts(rows[..k], seller)
    {
      assert rows[..k + 1][..k] == rows[..k];
      if Accepts(rows[k]) {
        drafts := drafts + [DraftOf(rows[k], seller)];
      }
      k := k + 1;
    }
    assert rows[..k] == rows;
  }
}
