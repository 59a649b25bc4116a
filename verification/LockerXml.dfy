/**
 The locker's directory listing (server/locker/xml.go): attribute escaping by
 successive replacements, and the XML built with it, read back.
 */
module LockerXml {
  import opened Decimals
  import opened GoStrings
  import opened Octets

  const MAX_FILES := 10000
  const MAX_BYTES := 0x4000_0000

  datatype Entry = Entry(name: string, desc: string, game: string, typ: string, idnt: string,
                         date: int, fileId: int, attr: int, size: int, locs: int, perm: int, vers: int, path: string)

  // ----- Escaping -----

  /** `strings.ReplaceAll` of one character. */
  function ReplaceAll(s: string, c: char, replacement: string): string {
    if s == [] then [] else (if s[0] == c then replacement else [s[0]]) + ReplaceAll(s[1..], c, replacement)
  }

  /** The four passes, one after the other. */
  function Attr(value: string): string {
    ReplaceAll(ReplaceAll(ReplaceAll(ReplaceAll(value, '&', "&amp;"), '"', "&quot;"), '<', "&lt;"), '>', "&gt;")
  }

  function EscapeChar(c: char): string {
    match c
    case '&' => "&amp;"
    case '"' => "&quot;"
    case '<' => "&lt;"
    case '>' => "&gt;"
    case _ => [c]
  }

  /** Escaping in one pass, character by character. */
  function Escape(s: string): string {
    if s == [] then [] else EscapeChar(s[0]) + Escape(s[1..])
  }

  /** Reading one escaped text. */
  function Unescape(s: string): string {
    if s == [] then []
    else if "&amp;" <= s then "&" + Unescape(s[5..])
    else if "&quot;" <= s then "\"" + Unescape(s[6..])
    else if "&lt;" <= s then "<" + Unescape(s[4..])
    else if "&gt;" <= s then ">" + Unescape(s[4..])
    else [s[0]] + Unescape(s[1..])
  }

  lemma {:induction false} ReplaceAllAppend(a: string, b: string, c: char, r: string)
    ensures ReplaceAll(a + b, c, r) == ReplaceAll(a, c, r) + ReplaceAll(b, c, r)
  {
    if a == [] {
      assert a + b == b;
    } else {
      assert (a + b)[1..] == a[1..] + b;
      ReplaceAllAppend(a[1..], b, c, r);
    }
  }

  lemma {:induction false} ReplaceAllAbsent(s: string, c: char, r: string)
    requires c !in s
    ensures ReplaceAll(s, c, r) == s
  {
    if s == [] {
    } else {
      ReplaceAllAbsent(s[1..], c, r);
    }
  }

  lemma ReplaceAllOne(c: char, d: char, r: string)
    ensures ReplaceAll([d], c, r) == if d == c then r else [d]
  {
    assert [d][1..] == [];
  }

  /** What the four passes make of one character: the later ones leave the entities of the earlier ones alone. */
  lemma AttrOne(c: char)
    ensures Attr([c]) == EscapeChar(c)
  {
    hide ReplaceAll;
    ReplaceAllOne('&', c, "&amp;");
    var s1 := if c == '&' then "&amp;" else [c];
    Pass(s1, c, '"', "&quot;");
    var s2 := if c == '"' then "&quot;" else s1;
    Pass(s2, c, '<', "&lt;");
    var s3 := if c == '<' then "&lt;" else s2;
    Pass(s3, c, '>', "&gt;");
  }

  lemma Pass(s: string, c: char, d: char, r: string)
    requires s == [c] || d !in s
    ensures ReplaceAll(s, d, r) == if s == [d] then r else s
  {
    if s == [c] {
      ReplaceAllOne(d, c, r);
    } else {
      ReplaceAllAbsent(s, d, r);
    }
  }

  /** The four passes escape character by character. */
  lemma {:induction false} AttrIsEscape(s: string)
    ensures Attr(s) == Escape(s)
  {
    if s == [] {
    } else {
      AttrIsEscape(s[1..]);
      AttrOne(s[0]);
      AttrAppend([s[0]], s[1..]);
      assert [s[0]] + s[1..] == s;
    }
  }

  lemma AttrAppend(a: string, b: string)
    ensures Attr(a + b) == Attr(a) + Attr(b)
  {
    var a1, b1 := ReplaceAll(a, '&', "&amp;"), ReplaceAll(b, '&', "&amp;");
    ReplaceAllAppend(a, b, '&', "&amp;");
    var a2, b2 := ReplaceAll(a1, '"', "&quot;"), ReplaceAll(b1, '"', "&quot;");
    ReplaceAllAppend(a1, b1, '"', "&quot;");
    var a3, b3 := ReplaceAll(a2, '<', "&lt;"), ReplaceAll(b2, '<', "&lt;");
    ReplaceAllAppend(a2, b2, '<', "&lt;");
    ReplaceAllAppend(a3, b3, '>', "&gt;");
  }

  lemma UnescapeOne(c: char, rest: string)
    ensures Unescape(EscapeChar(c) + rest) == [c] + Unescape(rest)
  {
    var s := EscapeChar(c) + rest;
    assert s[|EscapeChar(c)|..] == rest;
    assert "&amp;"[0] == "&quot;"[0] == "&lt;"[0] == "&gt;"[0] == '&';
    assert "&amp;"[1] == 'a' && "&quot;"[1] == 'q' && "&lt;"[1] == 'l' && "&gt;"[1] == 'g';
    assert EscapeChar(c) <= s && s[0] == EscapeChar(c)[0];
    if c == '&' || c == '"' || c == '<' || c == '>' {
      assert s[1] == EscapeChar(c)[1];
    }
  }

  lemma {:induction false} EscapeRoundTrip(s: string)
    ensures Unescape(Escape(s)) == s
  {
    if s == [] {
    } else {
      EscapeRoundTrip(s[1..]);
      UnescapeOne(s[0], Escape(s[1..]));
    }
  }

  /** Escaped text can stand between double quotes inside a tag. */
  lemma {:induction false} EscapeHasNoMarkup(s: string)
    ensures '"' !in Escape(s) && '<' !in Escape(s) && '>' !in Escape(s)
  {
    if s == [] {
    } else {
      EscapeHasNoMarkup(s[1..]);
    }
  }

  /** Escaping is reversible and leaves no markup. */
  lemma AttrIsReversible(s: string)
    ensures Unescape(Attr(s)) == s && '"' !in Attr(s) && '<' !in Attr(s) && '>' !in Attr(s)
  {
    hide Attr, Escape, Unescape;
    AttrIsEscape(s);
    EscapeRoundTrip(s);
    EscapeHasNoMarkup(s);
  }

  // ----- Printing -----

  /** A quoted attribute: the literal text up to its opening quote, and what stands between the quotes. */
  datatype Attribute = Attribute(tag: string, value: string)

  /** Formatted text: each attribute's literal text and quoted value, then the literal end. */
  function Text(attrs: seq<Attribute>, end: string): string {
    if attrs == [] then end else attrs[0].tag + "\"" + attrs[0].value + "\"" + Text(attrs[1..], end)
  }

  /** The 64-bit sum of the sizes. */
  function TotalBytes(entries: seq<Entry>): int {
    if entries == [] then 0 else Wrap64(TotalBytes(entries[..|entries| - 1]) + entries[|entries| - 1].size)
  }

  function Wrap64(n: int): int { (n - MIN_INT64) % TWO64 + MIN_INT64 }

  function Header(count: nat, bytes: int): seq<Attribute> {
    [Attribute("<LOCKER error=", "0"), Attribute(" numFiles=", Itoa(count)), Attribute(" maxFiles=", Itoa(MAX_FILES)),
     Attribute(" numBytes=", Itoa(bytes)), Attribute(" maxBytes=", Itoa(MAX_BYTES))]
  }

  function Optional(tag: string, value: string): seq<Attribute> {
    if value == "" then [] else [Attribute(tag, Attr(value))]
  }

  function RowAttributes(e: Entry): (r: seq<Attribute>)
    ensures |r| == 12
  {
    [Attribute("<FILE name=", Attr(e.name)), Attribute(" desc=", Attr(e.desc)), Attribute(" game=", Attr(e.game)),
     Attribute(" type=", Attr(e.typ)), Attribute(" idnt=", Attr(e.idnt)), Attribute(" date=", Itoa(e.date)),
     Attribute(" FileId=", Itoa(e.fileId)), Attribute(" attr=", Itoa(e.attr)), Attribute(" size=", Itoa(e.size)),
     Attribute(" locs=", Itoa(e.locs)), Attribute(" perm=", Itoa(e.perm)), Attribute(" vers=", Itoa(e.vers))]
  }

  function Rows(entries: seq<Entry>): string {
    if entries == [] then "" else Text(RowAttributes(entries[0]), "/>\n") + Rows(entries[1..])
  }

  function Listing(entries: seq<Entry>, game: string, pers: string): string {
    Text(Header(|entries|, TotalBytes(entries)), "") + Text(Optional(" game=", game), "") + Text(Optional(" pers=", pers), "")
    + if entries == [] then "/>" else ">\n" + Rows(entries) + "</LOCKER>"
  }

  method BuildXML(entries: seq<Entry>, game: string, pers: string) returns (xml: string)
    ensures xml == Listing(entries, game, pers)
  {
    hide Attr, Text, RowAttributes, Itoa;
    var totalBytes := 0;
    for i := 0 to |entries|
      invariant totalBytes == TotalBytes(entries[..i])
    {
      totalBytes := Wrap64(totalBytes + entries[i].size);
      assert entries[..i + 1][..i] == entries[..i];
    }
    assert entries[..|entries|] == entries;
    xml := Text(Header(|entries|, totalBytes), "");
    xml := xml + Text(Optional(" game=", game), "");
    xml := xml + Text(Optional(" pers=", pers), "");
    if |entries| == 0 {
      xml := xml + "/>";
      return;
    }
    var rows := WriteRows(entries);
    xml := xml + (">\n" + rows + "</LOCKER>");
  }

  method WriteRows(entries: seq<Entry>) returns (rows: string)
    ensures rows == Rows(entries)
  {
    hide Attr, Text, RowAttributes;
    rows := "";
    for i := 0 to |entries|
      invariant rows + Rows(entries[i..]) == Rows(entries)
    {
      ghost var before := rows;
      assert entries[i..][1..] == entries[i + 1..];
      rows := rows + Text(RowAttributes(entries[i]), "/>\n");
      assert rows + Rows(entries[i + 1..]) == before + (Text(RowAttributes(entries[i]), "/>\n") + Rows(entries[i + 1..]));
    }
    assert rows + "" == rows;
  }

  // ----- Reading -----

  /** The attributes of a text that was split at its double quotes. */
  function ReadAttributes(pieces: seq<string>): seq<Attribute> {
    if |pieces| < 2 then [] else [Attribute(pieces[0], pieces[1])] + ReadAttributes(pieces[2..])
  }

  function Attributes(xml: string): seq<Attribute> { ReadAttributes(Split(xml, '"')) }

  predicate StartsRow(a: Attribute) {
    |a.tag| >= 11 && a.tag[|a.tag| - 11..] == "<FILE name="
  }

  function ValueOf(attrs: seq<Attribute>, tag: string): string {
    if attrs == [] then "" else if attrs[0].tag == tag then attrs[0].value else ValueOf(attrs[1..], tag)
  }

  function TextIn(attrs: seq<Attribute>, tag: string): string { Unescape(ValueOf(attrs, tag)) }

  function NumberIn(attrs: seq<Attribute>, tag: string): int { Atoi(ValueOf(attrs, tag)).0 }

  /** A file row: its first attribute is the name, the others are looked up by name among the twelve. */
  function EntryOf(a: seq<Attribute>): Entry
    requires |a| >= 12
  {
    var row := a[..12];
    Entry(Unescape(a[0].value), TextIn(row, " desc="), TextIn(row, " game="), TextIn(row, " type="), TextIn(row, " idnt="),
          NumberIn(row, " date="), NumberIn(row, " FileId="), NumberIn(row, " attr="), NumberIn(row, " size="),
          NumberIn(row, " locs="), NumberIn(row, " perm="), NumberIn(row, " vers="), "")
  }

  /** The file rows: twelve attributes from each one that starts a row. */
  function ReadRows(attrs: seq<Attribute>): seq<Entry> {
    if |attrs| < 12 then []
    else if StartsRow(attrs[0]) then [EntryOf(attrs)] + ReadRows(attrs[12..])
    else ReadRows(attrs[1..])
  }

  // ----- Reading gives back what was printed -----

  predicate NoQuotes(attrs: seq<Attribute>) {
    forall i :: 0 <= i < |attrs| ==> '"' !in attrs[i].tag && '"' !in attrs[i].value
  }

  lemma TextOfFirst(attrs: seq<Attribute>, end: string)
    requires attrs != []
    ensures Text(attrs, end) == attrs[0].tag + ['"'] + (attrs[0].value + ['"'] + Text(attrs[1..], end))
  {
  }

  lemma {:induction false} TextReadsBack(attrs: seq<Attribute>, end: string)
    requires NoQuotes(attrs) && '"' !in end
    ensures Attributes(Text(attrs, end)) == attrs
  {
    if attrs == [] {
      SplitNone(end, '"');
    } else {
      var a, more := attrs[0], Text(attrs[1..], end);
      TextOfFirst(attrs, end);
      hide Text, Split;
      SplitAtFirst(a.tag, '"', a.value + ['"'] + more);
      SplitAtFirst(a.value, '"', more);
      TextReadsBack(attrs[1..], end);
      assert Split(Text(attrs, end), '"')[2..] == Split(more, '"');
    }
  }

  lemma {:induction false} TextGrows(attrs: seq<Attribute>, end: string, more: string)
    ensures Text(attrs, end) + more == Text(attrs, end + more)
  {
    if attrs == [] {
    } else {
      TextGrows(attrs[1..], end, more);
      var lead := attrs[0].tag + "\"" + attrs[0].value + "\"";
      assert lead + Text(attrs[1..], end) + more == lead + (Text(attrs[1..], end) + more);
    }
  }

  lemma {:induction false} TextJoins(a: seq<Attribute>, b: seq<Attribute>, end: string)
    ensures Text(a, Text(b, end)) == Text(a + b, end)
  {
    if a == [] {
      assert a + b == b;
    } else {
      TextJoins(a[1..], b, end);
      assert (a + b)[1..] == a[1..] + b;
    }
  }

  /** The attributes with some text in front of the first tag. */
  function Led(lead: string, attrs: seq<Attribute>): (r: seq<Attribute>)
    requires attrs != []
    ensures |r| == |attrs|
  {
    [Attribute(lead + attrs[0].tag, attrs[0].value)] + attrs[1..]
  }

  lemma TextLeads(lead: string, attrs: seq<Attribute>, end: string)
    requires attrs != []
    ensures lead + Text(attrs, end) == Text(Led(lead, attrs), end)
  {
    var led := Led(lead, attrs);
    assert led[1..] == attrs[1..];
    var more := "\"" + attrs[0].value + "\"" + Text(attrs[1..], end);
    assert lead + (attrs[0].tag + "\"" + attrs[0].value + "\"" + Text(attrs[1..], end)) == (lead + attrs[0].tag) + more;
    assert Text(led, end) == (lead + attrs[0].tag) + more;
  }

  /** All rows' attributes; the text that closes one tag stands before the next row's first tag. */
  function AllRows(lead: string, entries: seq<Entry>): seq<Attribute>
    decreases entries
  {
    if entries == [] then [] else Led(lead, RowAttributes(entries[0])) + AllRows("/>\n", entries[1..])
  }

  lemma {:induction false} RowsAreText(lead: string, entries: seq<Entry>, end: string)
    requires entries != []
    ensures lead + Rows(entries) + end == Text(AllRows(lead, entries), "/>\n" + end)
    decreases entries
  {
    hide RowAttributes, Text;
    var row, rest := RowAttributes(entries[0]), entries[1..];
    var more := "/>\n" + Rows(rest) + end;
    TextGrows(row, "/>\n", Rows(rest) + end);
    assert "/>\n" + (Rows(rest) + end) == more;
    assert lead + Rows(entries) + end == lead + (Text(row, "/>\n") + (Rows(rest) + end));
    TextLeads(lead, row, more);
    if rest == [] {
      assert more == "/>\n" + end;
      assert AllRows(lead, entries) == Led(lead, row);
    } else {
      RowsAreText("/>\n", rest, end);
      TextJoins(Led(lead, row), AllRows("/>\n", rest), "/>\n" + end);
    }
  }

  // ----- The whole listing -----

  /** What a reader of the listing learns. */
  datatype Reading = Reading(error: int, numFiles: int, maxFiles: int, numBytes: int, maxBytes: int,
                             game: string, pers: string, rows: seq<Entry>)

  /** The attributes in front of the first row. */
  function Head(attrs: seq<Attribute>): seq<Attribute> {
    if attrs == [] || StartsRow(attrs[0]) then [] else [attrs[0]] + Head(attrs[1..])
  }

  function ReadListing(xml: string): Reading {
    var attrs := Attributes(xml);
    var head := Head(attrs);
    Reading(NumberIn(head, "<LOCKER error="), NumberIn(head, " numFiles="), NumberIn(head, " maxFiles="),
            NumberIn(head, " numBytes="), NumberIn(head, " maxBytes="), TextIn(head, " game="), TextIn(head, " pers="), ReadRows(attrs))
  }

  predicate Fits(n: int) { MIN_INT64 <= n <= MAX_INT64 }

  /** The numbers of an entry are 64-bit. */
  predicate Representable(e: Entry) {
    Fits(e.date) && Fits(e.fileId) && Fits(e.attr) && Fits(e.size) && Fits(e.locs) && Fits(e.perm) && Fits(e.vers)
  }

  function Sum(entries: seq<Entry>): int {
    if entries == [] then 0 else Sum(entries[..|entries| - 1]) + entries[|entries| - 1].size
  }

  /** The entries as far as they are listed: the file's path is not. */
  function Listed(entries: seq<Entry>): seq<Entry> {
    if entries == [] then [] else [entries[0].(path := "")] + Listed(entries[1..])
  }

  function Heading(count: nat, bytes: int, game: string, pers: string): seq<Attribute> {
    Header(count, bytes) + Optional(" game=", game) + Optional(" pers=", pers)
  }

  lemma {:induction false} WrappingOnceIsEnough(entries: seq<Entry>)
    ensures TotalBytes(entries) == Wrap64(Sum(entries))
  {
    if entries == [] {
    } else {
      var init := entries[..|entries| - 1];
      WrappingOnceIsEnough(init);
      WrapAbsorbs(Sum(init), entries[|entries| - 1].size);
    }
  }

  lemma WrapAbsorbs(a: int, b: int)
    ensures Wrap64(Wrap64(a) + b) == Wrap64(a + b)
  {
    var k := (a - MIN_INT64) / TWO64;
    assert Wrap64(a) == a - k * TWO64;
    ModShift(a + b - MIN_INT64, k);
  }

  lemma ModShift(n: int, k: int)
    ensures (n - k * TWO64) % TWO64 == n % TWO64
  {
    var q, r := n / TWO64, n % TWO64;
    assert n - k * TWO64 == (q - k) * TWO64 + r;
  }

  lemma ItoaHasNoQuote(n: int)
    ensures '"' !in Itoa(n)
  {
  }

  /** The listing is one run of attributes and a literal end. */
  lemma ListingIsText(entries: seq<Entry>, game: string, pers: string)
    ensures Listing(entries, game, pers)
         == Text(Heading(|entries|, TotalBytes(entries), game, pers) + AllRows(">\n", entries),
                 if entries == [] then "/>" else "/>\n</LOCKER>")
  {
    hide Header, Optional, TotalBytes, Text;
    var h, g, p := Header(|entries|, TotalBytes(entries)), Optional(" game=", game), Optional(" pers=", pers);
    var rows := AllRows(">\n", entries);
    var end := if entries == [] then "/>" else "/>\n</LOCKER>";
    var tail := if entries == [] then "/>" else ">\n" + Rows(entries) + "</LOCKER>";
    TailIsText(entries);
    Chained(h, g, p, tail);
    TextJoins(h + g + p, rows, end);
  }

  lemma TailIsText(entries: seq<Entry>)
    ensures (if entries == [] then "/>" else ">\n" + Rows(entries) + "</LOCKER>")
         == Text(AllRows(">\n", entries), if entries == [] then "/>" else "/>\n</LOCKER>")
  {
    hide RowAttributes, Rows, Itoa, Attr;
    if entries != [] {
      hide Text, AllRows;
      RowsAreText(">\n", entries, "</LOCKER>");
      assert "/>\n" + "</LOCKER>" == "/>\n</LOCKER>";
    }
  }

  lemma Chained(h: seq<Attribute>, g: seq<Attribute>, p: seq<Attribute>, tail: string)
    ensures Text(h, "") + Text(g, "") + Text(p, "") + tail == Text(h + g + p, tail)
  {
    hide Text;
    Extend(h, g, "");
    Extend(h + g, p, "");
    TextGrows(h + g + p, "", tail);
    assert "" + tail == tail;
  }

  lemma Extend(a: seq<Attribute>, b: seq<Attribute>, end: string)
    ensures Text(a, "") + Text(b, end) == Text(a + b, end)
  {
    hide Text;
    TextGrows(a, "", Text(b, end));
    assert "" + Text(b, end) == Text(b, end);
    TextJoins(a, b, end);
  }

  lemma HeadingHasNoQuotes(count: nat, bytes: int, game: string, pers: string)
    ensures NoQuotes(Heading(count, bytes, game, pers))
  {
    hide Header, Optional, NoQuotes;
    HeaderHasNoQuotes(count, bytes);
    OptionalHasNoQuotes(" game=", game);
    OptionalHasNoQuotes(" pers=", pers);
    Together(Header(count, bytes), Optional(" game=", game));
    Together(Header(count, bytes) + Optional(" game=", game), Optional(" pers=", pers));
  }

  lemma HeaderHasNoQuotes(count: nat, bytes: int)
    ensures NoQuotes(Header(count, bytes))
  {
    hide Itoa;
    ItoaHasNoQuote(count);
    ItoaHasNoQuote(bytes);
    ItoaHasNoQuote(MAX_FILES);
    ItoaHasNoQuote(MAX_BYTES);
    assert '"' !in "<LOCKER error=" && '"' !in "0";
    assert '"' !in " numFiles=" && '"' !in " maxFiles=" && '"' !in " numBytes=" && '"' !in " maxBytes=";
  }

  lemma OptionalHasNoQuotes(tag: string, value: string)
    requires '"' !in tag
    ensures NoQuotes(Optional(tag, value))
  {
    hide Attr, Unescape;
    AttrIsReversible(value);
  }

  lemma RowHasNoQuotes(e: Entry)
    ensures NoQuotes(RowAttributes(e))
  {
    hide Itoa, Attr, Unescape;
    AttrIsReversible(e.name);
    AttrIsReversible(e.desc);
    AttrIsReversible(e.game);
    AttrIsReversible(e.typ);
    AttrIsReversible(e.idnt);
    ItoaHasNoQuote(e.date);
    ItoaHasNoQuote(e.fileId);
    ItoaHasNoQuote(e.attr);
    ItoaHasNoQuote(e.size);
    ItoaHasNoQuote(e.locs);
    ItoaHasNoQuote(e.perm);
    ItoaHasNoQuote(e.vers);
  }

  lemma {:induction false} AllRowsHaveNoQuotes(lead: string, entries: seq<Entry>)
    requires '"' !in lead
    ensures NoQuotes(AllRows(lead, entries))
    decreases entries
  {
    hide RowAttributes;
    if entries == [] {
    } else {
      RowHasNoQuotes(entries[0]);
      AllRowsHaveNoQuotes("/>\n", entries[1..]);
    }
  }

  /** Attributes that do not start a row are passed over. */
  lemma {:induction false} HeadIsPassedOver(head: seq<Attribute>, rows: seq<Attribute>)
    requires forall i :: 0 <= i < |head| ==> !StartsRow(head[i])
    requires rows == [] || (|rows| >= 12 && StartsRow(rows[0]))
    ensures ReadRows(head + rows) == ReadRows(rows) && Head(head + rows) == head
  {
    hide StartsRow, EntryOf;
    if head == [] {
      assert head + rows == rows;
    } else {
      assert (head + rows)[1..] == head[1..] + rows;
      HeadIsPassedOver(head[1..], rows);
    }
  }

  lemma RowStarts(lead: string, e: Entry)
    ensures StartsRow(Led(lead, RowAttributes(e))[0])
  {
    hide Attr, Itoa;
    var t := Led(lead, RowAttributes(e))[0].tag;
    assert t == lead + "<FILE name=";
  }

  lemma {:induction false} ValueAt(attrs: seq<Attribute>, k: nat)
    requires k < |attrs| && forall j :: 0 <= j < k ==> attrs[j].tag != attrs[k].tag
    ensures ValueOf(attrs, attrs[k].tag) == attrs[k].value
  {
    if k == 0 {
    } else {
      ValueAt(attrs[1..], k - 1);
    }
  }

  /** The names of a row's attributes differ. */
  lemma RowTagsDiffer(lead: string, e: Entry, j: nat, k: nat)
    requires j < k < 12
    ensures Led(lead, RowAttributes(e))[j].tag != Led(lead, RowAttributes(e))[k].tag
  {
    hide Attr, Itoa;
    var row := Led(lead, RowAttributes(e));
    TagLetters();
    assert |row[k].tag| <= 8;
    if j == 0 {
      assert |row[j].tag| >= 11;
    }
  }

  /** Letters in which the names differ. */
  lemma TagLetters()
    ensures " desc="[1] == 'd' && " desc="[2] == 'e' && " game="[1] == 'g' && " type="[1] == 't' && " idnt="[1] == 'i'
    ensures " date="[1] == 'd' && " date="[2] == 'a' && " FileId="[1] == 'F' && " attr="[1] == 'a' && " size="[1] == 's'
    ensures " locs="[1] == 'l' && " perm="[1] == 'p' && " vers="[1] == 'v'
  {
  }

  lemma RowReadsBack(lead: string, e: Entry, more: seq<Attribute>)
    requires Representable(e)
    ensures EntryOf(Led(lead, RowAttributes(e)) + more) == e.(path := "")
  {
    hide Itoa, Attr, Unescape, Atoi, ValueOf;
    var row := Led(lead, RowAttributes(e));
    assert (row + more)[..12] == row;
    forall k | 0 <= k < 12 ensures ValueOf(row, row[k].tag) == row[k].value {
      forall j | 0 <= j < k ensures row[j].tag != row[k].tag {
        RowTagsDiffer(lead, e, j, k);
      }
      ValueAt(row, k);
    }
    RowValues(lead, e);
    AttrIsReversible(e.name);
    AttrIsReversible(e.desc);
    AttrIsReversible(e.game);
    AttrIsReversible(e.typ);
    AttrIsReversible(e.idnt);
    AtoiOfItoa(e.date);
    AtoiOfItoa(e.fileId);
    AtoiOfItoa(e.attr);
    AtoiOfItoa(e.size);
    AtoiOfItoa(e.locs);
    AtoiOfItoa(e.perm);
    AtoiOfItoa(e.vers);
  }

  lemma RowValues(lead: string, e: Entry)
    ensures var row := Led(lead, RowAttributes(e));
      && row[1].tag == " desc=" && row[2].tag == " game=" && row[3].tag == " type=" && row[4].tag == " idnt="
      && row[5].tag == " date=" && row[6].tag == " FileId=" && row[7].tag == " attr=" && row[8].tag == " size="
      && row[9].tag == " locs=" && row[10].tag == " perm=" && row[11].tag == " vers="
  {
    hide Attr, Itoa;
  }

  lemma {:induction false} RowsReadBack(lead: string, entries: seq<Entry>)
    requires forall i :: 0 <= i < |entries| ==> Representable(entries[i])
    ensures ReadRows(AllRows(lead, entries)) == Listed(entries)
    decreases entries
  {
    hide RowAttributes, EntryOf, StartsRow, Led, Representable;
    if entries == [] {
    } else {
      var row, more := Led(lead, RowAttributes(entries[0])), AllRows("/>\n", entries[1..]);
      RowStarts(lead, entries[0]);
      RowReadsBack(lead, entries[0], more);
      RowsReadBack("/>\n", entries[1..]);
      assert (row + more)[12..] == more && (row + more)[0] == row[0];
    }
  }

  lemma HeadingReadsBack(count: nat, bytes: int, game: string, pers: string)
    requires Fits(count) && Fits(bytes)
    ensures var head := Heading(count, bytes, game, pers);
            && (forall i :: 0 <= i < |head| ==> !StartsRow(head[i]))
            && NumberIn(head, "<LOCKER error=") == 0 && NumberIn(head, " maxFiles=") == 10000 && NumberIn(head, " maxBytes=") == 0x4000_0000
            && NumberIn(head, " numFiles=") == count && NumberIn(head, " numBytes=") == bytes
            && TextIn(head, " game=") == game && TextIn(head, " pers=") == pers
  {
    hide Itoa, Attr, Unescape, Atoi, ValueOf, StartsRow;
    HeadingDoesNotStartRows(count, bytes, game, pers);
    HeadingValues(count, bytes, game, pers);
    HeadingLimits(count, bytes, game, pers);
    AtoiOfItoa(10000);
    AtoiOfItoa(0x4000_0000);
    AtoiOfZero();
    AtoiOfItoa(count);
    AtoiOfItoa(bytes);
    AttrIsReversible(game);
    AttrIsReversible(pers);
    AttrIsReversible("");
    AttrOfNothing();
  }

  lemma AttrOfNothing()
    ensures Attr("") == "" && Unescape("") == ""
  {
    AttrIsEscape("");
  }

  lemma HeadingDoesNotStartRows(count: nat, bytes: int, game: string, pers: string)
    ensures forall i :: 0 <= i < |Heading(count, bytes, game, pers)| ==> !StartsRow(Heading(count, bytes, game, pers)[i])
  {
    hide Itoa, Attr, StartsRow;
    var head := Heading(count, bytes, game, pers);
    forall i | 0 <= i < |head| ensures !StartsRow(head[i]) {
      RowTagOpens(head[i]);
    }
  }

  lemma RowTagOpens(a: Attribute)
    requires |a.tag| < 11 || a.tag[|a.tag| - 11] != '<'
    ensures !StartsRow(a)
  {
    if |a.tag| >= 11 {
      assert a.tag[|a.tag| - 11..][0] != "<FILE name="[0];
    }
  }

  lemma {:induction false} ValueSkips(a: seq<Attribute>, b: seq<Attribute>, tag: string)
    requires forall i :: 0 <= i < |a| ==> a[i].tag != tag
    ensures ValueOf(a + b, tag) == ValueOf(b, tag)
  {
    if a == [] {
      assert a + b == b;
    } else {
      assert (a + b)[1..] == a[1..] + b;
      ValueSkips(a[1..], b, tag);
    }
  }

  lemma AtoiOfZero()
    ensures Atoi("0").0 == 0
  {
    AtoiOfItoa(0);
    assert Digits(0) == "0";
  }

  lemma HeadingLimits(count: nat, bytes: int, game: string, pers: string)
    ensures var head := Heading(count, bytes, game, pers);
            && ValueOf(head, "<LOCKER error=") == "0"
            && ValueOf(head, " maxFiles=") == Itoa(10000) && ValueOf(head, " maxBytes=") == Itoa(0x4000_0000)
  {
    hide Itoa, Attr, ValueOf;
    var h, rest := Header(count, bytes), Optional(" game=", game) + Optional(" pers=", pers);
    var head := Heading(count, bytes, game, pers);
    assert head == h + rest;
    assert " numFiles="[1] == 'n' && " maxFiles="[1] == 'm' && " numBytes="[1] == 'n' && " maxBytes="[1] == 'm';
    assert " maxFiles="[4] == 'F' && " maxBytes="[4] == 'B' && "<LOCKER error="[0] == '<';
    ValueAt(head, 0);
    ValueAt(head, 2);
    ValueAt(head, 4);
  }

  lemma HeadingValues(count: nat, bytes: int, game: string, pers: string)
    ensures var head := Heading(count, bytes, game, pers);
            && ValueOf(head, " numFiles=") == Itoa(count) && ValueOf(head, " numBytes=") == Itoa(bytes)
            && ValueOf(head, " game=") == (if game == "" then "" else Attr(game))
            && ValueOf(head, " pers=") == (if pers == "" then "" else Attr(pers))
  {
    hide Itoa, Attr;
    var h, g, p := Header(count, bytes), Optional(" game=", game), Optional(" pers=", pers);
    var head := h + g + p;
    assert head == h[..1] + head[1..] == h[..3] + head[3..] == h + (g + p) == (h + g) + p;
    assert " numFiles="[4] == 'F' && " numBytes="[4] == 'B' && " maxFiles="[1] == 'm' && " numBytes="[1] == 'n';
    ValueSkips(h[..1], head[1..], " numFiles=");
    ValueSkips(h[..3], head[3..], " numBytes=");
    ValueSkips(h, g + p, " game=");
    assert " game="[1] == 'g' && " pers="[1] == 'p';
    ValueSkips(h + g, p, " pers=");
    OptionalValue(" game=", game, p);
    OptionalValue(" pers=", pers, []);
    assert p + [] == p;
  }

  lemma OptionalValue(tag: string, value: string, more: seq<Attribute>)
    requires forall i :: 0 <= i < |more| ==> more[i].tag != tag
    ensures ValueOf(Optional(tag, value) + more, tag) == if value == "" then "" else Attr(value)
  {
    if value == "" {
      ValueSkips(more, [], tag);
      assert more + [] == more && [] + more == more;
    }
  }

  /** Splitting the listing at its quotes finds every attribute. */
  lemma ListingAttributes(entries: seq<Entry>, game: string, pers: string)
    ensures Attributes(Listing(entries, game, pers))
         == Heading(|entries|, TotalBytes(entries), game, pers) + AllRows(">\n", entries)
  {
    hide Heading, AllRows, TotalBytes, Listing, Text, Attributes, NoQuotes;
    var head, rows := Heading(|entries|, TotalBytes(entries), game, pers), AllRows(">\n", entries);
    ListingIsText(entries, game, pers);
    HeadingHasNoQuotes(|entries|, TotalBytes(entries), game, pers);
    AllRowsHaveNoQuotes(">\n", entries);
    Together(head, rows);
    TextReadsBack(head + rows, if entries == [] then "/>" else "/>\n</LOCKER>");
  }

  /** Reading the listing gives back the count, the total, both names and every row. */
  lemma ListingReadsBack(entries: seq<Entry>, game: string, pers: string)
    requires Fits(|entries|)
    requires forall i :: 0 <= i < |entries| ==> Representable(entries[i])
    ensures ReadListing(Listing(entries, game, pers))
         == Reading(0, |entries|, 10000, Wrap64(Sum(entries)), 0x4000_0000, game, pers, Listed(entries))
  {
    hide Heading, AllRows, TotalBytes, Sum, Listed, ValueOf, Unescape, Atoi, Listing, Attributes, StartsRow, Representable,
      Head, ReadRows;
    WrappingOnceIsEnough(entries);
    ListingAttributes(entries, game, pers);
    HeadingReadsBack(|entries|, TotalBytes(entries), game, pers);
    RowsStart(entries);
    HeadIsPassedOver(Heading(|entries|, TotalBytes(entries), game, pers), AllRows(">\n", entries));
    RowsReadBack(">\n", entries);
  }

  lemma Together(a: seq<Attribute>, b: seq<Attribute>)
    requires NoQuotes(a) && NoQuotes(b)
    ensures NoQuotes(a + b)
  {
  }

  lemma RowsStart(entries: seq<Entry>)
    ensures var rows := AllRows(">\n", entries); rows == [] || (|rows| >= 12 && StartsRow(rows[0]))
  {
    hide RowAttributes, StartsRow;
    if entries != [] {
      RowStarts(">\n", entries[0]);
      var row, more := Led(">\n", RowAttributes(entries[0])), AllRows("/>\n", entries[1..]);
      assert AllRows(">\n", entries) == row + more && (row + more)[0] == row[0];
    }
  }
}
