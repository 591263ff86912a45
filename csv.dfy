/**
 * The text-building half of `exportToCSV`: the header row, the quoted data
 * rows and the CRLF join. A decoder states what the text means: decoding
 * it gives back the header and every row's values. The decoder reads the
 * grammar of section 2 of RFC 4180 ("Definition of the CSV Format") with
 * TEXTDATA relaxed from printable ASCII to any character but comma, double
 * quote, CR and LF.
 */
module Csv {
  import opened Types

  /** A JavaScript property value as the encoder sees it. */
  datatype Value = Null | Undefined | Str(text: string)

  /** An own enumerable property, in `Object.keys` order. */
  datatype Property = Property(key: string, value: Value)

  type JsObject = seq<Property>

  /** `Object.keys(o)`. */
  function Keys(o: JsObject): (r: seq<string>)
    ensures |r| == |o|
    ensures forall i :: 0 <= i < |o| ==> r[i] == o[i].key
  {
    seq(|o|, i requires 0 <= i < |o| => o[i].key)
  }

  /** `o[k]`: the value of the property named `k`, `undefined` when there is none. */
  function Get(o: JsObject, k: string): (v: Value)
    ensures k !in Keys(o) ==> v == Undefined
    ensures forall i :: 0 <= i < |o| && o[i].key == k && (forall j :: 0 <= j < i ==> o[j].key != k) ==> v == o[i].value
  {
    if o == [] then Undefined
    else if o[0].key == k then o[0].value
    else
      assert Keys(o) == [o[0].key] + Keys(o[1..]);
      Get(o[1..], k)
  }

  lemma KeysAppend(o1: JsObject, o2: JsObject)
    ensures Keys(o1 + o2) == Keys(o1) + Keys(o2)
  {
  }

  /** A key that `o1` lacks is looked up in `o2` alone. */
  lemma {:induction false} GetAfter(o1: JsObject, o2: JsObject, k: string)
    requires k !in Keys(o1)
    ensures Get(o1 + o2, k) == Get(o2, k)
  {
    if o1 != [] {
      assert (o1 + o2)[1..] == o1[1..] + o2;
      assert Keys(o1) == [o1[0].key] + Keys(o1[1..]);
      GetAfter(o1[1..], o2, k);
    } else {
      assert o1 + o2 == o2;
    }
  }

  /** The number of double quotes in `s`. */
  function QuoteCount(s: string): nat
  {
    if s == [] then 0 else (if s[0] == '"' then 1 else 0) + QuoteCount(s[1..])
  }

  /** `s.replace(/"/g, '""')`: every double quote doubled. */
  function Escape(s: string): (r: string)
    ensures |r| == |s| + QuoteCount(s)
    ensures QuoteCount(s) == 0 ==> r == s
  {
    if s == [] then ""
    else (if s[0] == '"' then "\"\"" else [s[0]]) + Escape(s[1..])
  }

  /** The text a value stands for in the file: empty for `null` and `undefined`. */
  function Shown(v: Value): string
  {
    match v
    case Null => ""
    case Undefined => ""
    case Str(t) => t
  }

  /** The `replacer` of `exportToCSV`. */
  function Replacer(v: Value): (r: string)
    ensures r == Escape(Shown(v))
  {
    if v == Null || v == Undefined then "" else Escape(v.text)
  }

  /** One data field: the replaced value enclosed in double quotes. */
  function QuoteField(v: Value): (r: string)
    ensures |r| >= 2 && r[0] == '"' && r[|r| - 1] == '"'
    ensures (v == Null || v == Undefined) ==> r == "\"\""
  {
    "\"" + Replacer(v) + "\""
  }

  /** `xs.join(sep)`. */
  function JoinWith(sep: string, xs: seq<string>): string
  {
    if |xs| == 0 then ""
    else if |xs| == 1 then xs[0]
    else xs[0] + sep + JoinWith(sep, xs[1..])
  }

  /** `header.join(',')`: the keys, unquoted. */
  function HeaderLine(header: seq<string>): string
  {
    JoinWith(",", header)
  }

  /** The fields of one data row, one per header key. */
  function RowFields(header: seq<string>, row: JsObject): (r: seq<string>)
    ensures |r| == |header|
    ensures forall i :: 0 <= i < |header| ==> r[i] == QuoteField(Get(row, header[i]))
  {
    seq(|header|, i requires 0 <= i < |header| => QuoteField(Get(row, header[i])))
  }

  function DataLine(header: seq<string>, row: JsObject): string
  {
    JoinWith(",", RowFields(header, row))
  }

  /** The `csvRows` array: the header row, then one line per object. */
  function CsvRows(data: seq<JsObject>): (r: seq<string>)
    requires |data| > 0
    ensures |r| == |data| + 1
  {
    var header := Keys(data[0]);
    [HeaderLine(header)] + seq(|data|, i requires 0 <= i < |data| => DataLine(header, data[i]))
  }

  /** `csvRows.join('\r\n')`. */
  function CsvString(data: seq<JsObject>): string
    requires |data| > 0
  {
    JoinWith("\r\n", CsvRows(data))
  }

  /**
   * The text `exportToCSV` would download, or `None` when it returns early
   * because `data` is missing or empty.
   */
  function ExportText(data: Option<seq<JsObject>>): (r: Option<string>)
    ensures r.None? <==> data.None? || |data.value| == 0
    ensures r.Some? && |data.value[0]| > 0 && PlainKeys(data.value[0]) ==>
              Decode(r.value) == Some(Table(data.value))
  {
    if data.None? || |data.value| == 0 then None
    else
      var text := CsvString(data.value);
      if |data.value[0]| > 0 && PlainKeys(data.value[0]) then
        CsvRoundTrip(data.value);
        Some(text)
      else Some(text)
  }

  // ---------------------------------------------------------------------
  // Decoding under a relaxed section 2 of RFC 4180
  // ---------------------------------------------------------------------

  /** A character allowed in a non-escaped field (RFC 4180 allows only %x20-21, %x23-2B and %x2D-7E). */
  predicate TextData(c: char)
  {
    c != ',' && c != '"' && c != '\r' && c != '\n'
  }

  predicate Plain(s: string)
  {
    forall i :: 0 <= i < |s| ==> TextData(s[i])
  }

  /** Every key of `o` can be written unquoted. */
  predicate PlainKeys(o: JsObject)
  {
    forall i :: 0 <= i < |o| ==> Plain(o[i].key)
  }

  /**
   * The rest of an escaped field after its opening quote: its content with
   * each `""` read as `"`, and the input that follows the closing quote.
   */
  function ParseEscaped(s: string): (r: Option<(string, string)>)
    ensures r.Some? ==> |r.value.1| < |s|
  {
    if s == [] then None
    else if s[0] == '"' then
      if |s| >= 2 && s[1] == '"' then
        match ParseEscaped(s[2..])
        case None => None
        case Some(res) => Some(("\"" + res.0, res.1))
      else Some(("", s[1..]))
    else
      match ParseEscaped(s[1..])
      case None => None
      case Some(res) => Some(([s[0]] + res.0, res.1))
  }

  /** A non-escaped field: the longest prefix of text data. */
  function ParsePlain(s: string): (r: (string, string))
    ensures Plain(r.0) && r.0 + r.1 == s
    ensures r.1 == [] || !TextData(r.1[0])
  {
    if s == [] || !TextData(s[0]) then ("", s)
    else
      var res := ParsePlain(s[1..]);
      var field := [s[0]] + res.0;
      assert Plain(field) by {
        forall i | 0 <= i < |field|
          ensures TextData(field[i])
        {
          if i > 0 { assert field[i] == res.0[i - 1]; }
        }
      }
      assert field + res.1 == s by {
        assert s == [s[0]] + s[1..];
      }
      (field, res.1)
  }

  function ParseField(s: string): (r: Option<(string, string)>)
    ensures r.Some? ==> |r.value.1| <= |s|
  {
    if s != [] && s[0] == '"' then ParseEscaped(s[1..]) else Some(ParsePlain(s))
  }

  predicate StartsWithCrlf(s: string)
  {
    |s| >= 2 && s[0] == '\r' && s[1] == '\n'
  }

  /** One record: comma-separated fields up to the end of input or a CRLF, which is left unread. */
  function ParseRecord(s: string): (r: Option<(seq<string>, string)>)
    ensures r.Some? ==> |r.value.1| <= |s| && |r.value.0| >= 1
    ensures r.Some? ==> r.value.1 == [] || StartsWithCrlf(r.value.1)
    decreases |s|
  {
    match ParseField(s)
    case None => None
    case Some(f) =>
      if f.1 != [] && f.1[0] == ',' then
        match ParseRecord(f.1[1..])
        case None => None
        case Some(more) => Some(([f.0] + more.0, more.1))
      else if f.1 == [] || StartsWithCrlf(f.1) then Some(([f.0], f.1))
      else None
  }

  /** A file: records separated by CRLF, with an optional CRLF after the last one. */
  function Decode(s: string): (r: Option<seq<seq<string>>>)
    ensures r.Some? ==> |r.value| >= 1
    decreases |s|
  {
    match ParseRecord(s)
    case None => None
    case Some(rec) =>
      if rec.1 == [] || rec.1 == "\r\n" then Some([rec.0])
      else
        match Decode(rec.1[2..])
        case None => None
        case Some(more) => Some([rec.0] + more)
  }

  // ---------------------------------------------------------------------
  // The round trip
  // ---------------------------------------------------------------------

  /** The values a data row stands for, in header order. */
  function ShownRow(header: seq<string>, row: JsObject): (r: seq<string>)
    ensures |r| == |header|
  {
    seq(|header|, j requires 0 <= j < |header| => Shown(Get(row, header[j])))
  }

  /** What decoding the encoder's output must give: the header, then each row's shown values. */
  function Table(data: seq<JsObject>): (t: seq<seq<string>>)
    requires |data| > 0
    ensures |t| == |data| + 1
    ensures t[0] == Keys(data[0])
    ensures forall i :: 1 <= i < |t| ==> |t[i]| == |data[0]|
  {
    var header := Keys(data[0]);
    [header] + seq(|data|, i requires 0 <= i < |data| => ShownRow(header, data[i]))
  }

  /** Row `i + 1` of the table is object `i`'s shown values under the header. */
  lemma TableRow(data: seq<JsObject>, i: nat)
    requires i < |data|
    ensures Table(data)[i + 1] == ShownRow(Keys(data[0]), data[i])
  {
  }

  /** An escaped field's body, closed by a quote, reads back as the original text. */
  lemma {:induction false} EscapedRoundTrip(v: string, rest: string)
    requires rest == [] || rest[0] != '"'
    ensures ParseEscaped(Escape(v) + "\"" + rest) == Some((v, rest))
  {
    var s := Escape(v) + "\"" + rest;
    if v == [] {
      assert s == "\"" + rest;
      assert s[1..] == rest;
    } else if v[0] == '"' {
      assert s == "\"\"" + (Escape(v[1..]) + "\"" + rest);
      assert s[2..] == Escape(v[1..]) + "\"" + rest;
      EscapedRoundTrip(v[1..], rest);
      assert "\"" + v[1..] == v;
    } else {
      assert s == [v[0]] + (Escape(v[1..]) + "\"" + rest);
      assert s[1..] == Escape(v[1..]) + "\"" + rest;
      EscapedRoundTrip(v[1..], rest);
      assert [v[0]] + v[1..] == v;
    }
  }

  lemma {:induction false} PlainRoundTrip(k: string, rest: string)
    requires Plain(k)
    requires rest == [] || !TextData(rest[0])
    ensures ParsePlain(k + rest) == (k, rest)
  {
    if k == [] {
      assert k + rest == rest;
    } else {
      assert (k + rest)[1..] == k[1..] + rest;
      PlainRoundTrip(k[1..], rest);
      assert [k[0]] + k[1..] == k;
    }
  }

  /** A field as the encoder writes it: quoted and escaped, or (for the header) as is. */
  function EncodeField(quoted: bool, v: string): string
  {
    if quoted then "\"" + Escape(v) + "\"" else v
  }

  predicate EncodableRecord(quoted: bool, vs: seq<string>)
  {
    |vs| >= 1 && (quoted || forall i :: 0 <= i < |vs| ==> Plain(vs[i]))
  }

  /** Each value written as a field. */
  function EncodeFields(quoted: bool, vs: seq<string>): (fs: seq<string>)
    ensures |fs| == |vs|
    ensures forall i :: 0 <= i < |vs| ==> fs[i] == EncodeField(quoted, vs[i])
  {
    if vs == [] then [] else [EncodeField(quoted, vs[0])] + EncodeFields(quoted, vs[1..])
  }

  function EncodeRecord(quoted: bool, vs: seq<string>): string
  {
    JoinWith(",", EncodeFields(quoted, vs))
  }

  /** Each record written as a line, the `i`-th quoted as `quoted[i]` says. */
  function EncodeLines(quoted: seq<bool>, table: seq<seq<string>>): (lines: seq<string>)
    requires |quoted| == |table|
    ensures |lines| == |table|
    ensures forall i :: 0 <= i < |table| ==> lines[i] == EncodeRecord(quoted[i], table[i])
  {
    if table == [] then [] else [EncodeRecord(quoted[0], table[0])] + EncodeLines(quoted[1..], table[1..])
  }

  lemma JoinWithCons(sep: string, x: string, xs: seq<string>)
    requires xs != []
    ensures JoinWith(sep, [x] + xs) == x + (sep + JoinWith(sep, xs))
  {
    assert ([x] + xs)[1..] == xs;
  }

  lemma FieldRoundTrip(quoted: bool, v: string, rest: string)
    requires quoted || Plain(v)
    requires rest == [] || rest[0] == ',' || rest[0] == '\r'
    ensures ParseField(EncodeField(quoted, v) + rest) == Some((v, rest))
  {
    if quoted {
      var body := Escape(v) + "\"" + rest;
      var s := "\"" + body;
      assert EncodeField(quoted, v) + rest == s;
      assert s[0] == '"' && s[1..] == body;
      EscapedRoundTrip(v, rest);
    } else {
      var s := v + rest;
      assert EncodeField(quoted, v) + rest == s;
      assert s == [] || s[0] != '"' by {
        if v != [] { assert s[0] == v[0] && TextData(v[0]); }
        else { assert s == rest; }
      }
      PlainRoundTrip(v, rest);
    }
  }

  /** A record of several fields is its first field, a comma, and the record of the others. */
  lemma RecordSplits(quoted: bool, vs: seq<string>, rest: string)
    requires |vs| >= 2
    ensures EncodeRecord(quoted, vs) + rest
            == EncodeField(quoted, vs[0]) + ("," + (EncodeRecord(quoted, vs[1..]) + rest))
  {
    var first := EncodeField(quoted, vs[0]);
    var others := EncodeFields(quoted, vs[1..]);
    assert EncodeFields(quoted, vs) == [first] + others;
    JoinWithCons(",", first, others);
  }

  lemma SingleRecordRoundTrip(quoted: bool, vs: seq<string>, rest: string)
    requires |vs| == 1 && EncodableRecord(quoted, vs)
    requires rest == [] || StartsWithCrlf(rest)
    ensures ParseRecord(EncodeRecord(quoted, vs) + rest) == Some((vs, rest))
  {
    assert EncodeFields(quoted, vs) == [EncodeField(quoted, vs[0])];
    FieldRoundTrip(quoted, vs[0], rest);
    assert [vs[0]] == vs;
  }

  lemma {:induction false} RecordRoundTrip(quoted: bool, vs: seq<string>, rest: string)
    requires EncodableRecord(quoted, vs)
    requires rest == [] || StartsWithCrlf(rest)
    ensures ParseRecord(EncodeRecord(quoted, vs) + rest) == Some((vs, rest))
  {
    if |vs| == 1 {
      SingleRecordRoundTrip(quoted, vs, rest);
    } else {
      var tail := vs[1..];
      var after := "," + (EncodeRecord(quoted, tail) + rest);
      RecordSplits(quoted, vs, rest);
      FieldRoundTrip(quoted, vs[0], after);
      assert after[1..] == EncodeRecord(quoted, tail) + rest;
      RecordRoundTrip(quoted, tail, rest);
      assert [vs[0]] + tail == vs;
    }
  }

  /** A record whose first field is quoted writes a non-empty line. */
  lemma QuotedRecordNonEmpty(vs: seq<string>)
    requires |vs| >= 1
    ensures EncodeRecord(true, vs) != [] && EncodeRecord(true, vs)[0] == '"'
  {
    var fs := EncodeFields(true, vs);
    if |vs| > 1 {
      assert fs == [fs[0]] + fs[1..];
      JoinWithCons(",", fs[0], fs[1..]);
    }
  }

  /** Several lines joined with CRLF are the first line, a CRLF, and the join of the others. */
  lemma TableSplits(quoted: seq<bool>, table: seq<seq<string>>)
    requires |quoted| == |table| >= 2
    ensures JoinWith("\r\n", EncodeLines(quoted, table))
            == EncodeRecord(quoted[0], table[0]) + ("\r\n" + JoinWith("\r\n", EncodeLines(quoted[1..], table[1..])))
  {
    var first := EncodeRecord(quoted[0], table[0]);
    var others := EncodeLines(quoted[1..], table[1..]);
    assert EncodeLines(quoted, table) == [first] + others;
    JoinWithCons("\r\n", first, others);
  }

  /** Quoted lines joined with CRLF start with a quote, so they are never empty. */
  lemma QuotedLinesNonEmpty(quoted: seq<bool>, table: seq<seq<string>>)
    requires |quoted| == |table| >= 1
    requires forall i :: 0 <= i < |quoted| ==> quoted[i] && |table[i]| >= 1
    ensures JoinWith("\r\n", EncodeLines(quoted, table)) != []
  {
    QuotedRecordNonEmpty(table[0]);
    if |table| > 1 {
      TableSplits(quoted, table);
    }
  }

  /**
   * A table of records, the first written with `quoted[0]` and the others
   * quoted, joined with CRLF, decodes to itself.
   */
  lemma {:induction false} TableRoundTrip(quoted: seq<bool>, table: seq<seq<string>>)
    requires |quoted| == |table| >= 1
    requires forall i :: 1 <= i < |quoted| ==> quoted[i]
    requires forall i :: 0 <= i < |table| ==> EncodableRecord(quoted[i], table[i])
    ensures Decode(JoinWith("\r\n", EncodeLines(quoted, table))) == Some(table)
  {
    if |table| == 1 {
      var lines := EncodeLines(quoted, table);
      assert JoinWith("\r\n", lines) == lines[0] + "";
      RecordRoundTrip(quoted[0], table[0], "");
      assert [table[0]] == table;
    } else {
      var qt, tt := quoted[1..], table[1..];
      var restText := JoinWith("\r\n", EncodeLines(qt, tt));
      QuotedLinesNonEmpty(qt, tt);
      var rest := "\r\n" + restText;
      TableSplits(quoted, table);
      RecordRoundTrip(quoted[0], table[0], rest);
      assert rest != "\r\n";
      assert rest[2..] == restText;
      TableRoundTrip(qt, tt);
      assert [table[0]] + tt == table;
    }
  }

  lemma HeaderEncoded(header: seq<string>)
    ensures EncodeRecord(false, header) == HeaderLine(header)
  {
    assert EncodeFields(false, header) == header;
  }

  lemma RowEncoded(header: seq<string>, row: JsObject)
    ensures EncodeRecord(true, ShownRow(header, row)) == DataLine(header, row)
  {
    var vs := ShownRow(header, row);
    assert EncodeFields(true, vs) == RowFields(header, row);
  }

  /**
   * The encoder's output decodes, under the relaxed RFC 4180 reading, to the first
   * object's keys followed by every object's shown values in header order.
   * Needs a non-empty header whose keys contain no comma, quote, CR or LF,
   * since the header row is written unquoted.
   */
  lemma CsvRoundTrip(data: seq<JsObject>)
    requires |data| > 0 && |data[0]| > 0 && PlainKeys(data[0])
    ensures Decode(CsvString(data)) == Some(Table(data))
  {
    var table := Table(data);
    var quoted := seq(|table|, i requires 0 <= i < |table| => i > 0);
    TableLines(data, quoted);
    TableRoundTrip(quoted, table);
  }

  /** Line `i` of the encoder's output is record `i` of the table, the header unquoted and the rows quoted. */
  lemma LineEncoded(data: seq<JsObject>, i: nat)
    requires |data| > 0 && |data[0]| > 0 && PlainKeys(data[0])
    requires i <= |data|
    ensures EncodableRecord(i > 0, Table(data)[i])
    ensures EncodeRecord(i > 0, Table(data)[i]) == CsvRows(data)[i]
  {
    var header := Keys(data[0]);
    if i == 0 {
      HeaderEncoded(header);
      assert Table(data)[0] == header;
      assert forall j :: 0 <= j < |header| ==> Plain(header[j]) by {
        forall j | 0 <= j < |header| ensures Plain(header[j]) {
          assert header[j] == data[0][j].key;
        }
      }
    } else {
      RowEncoded(header, data[i - 1]);
      assert Table(data)[i] == ShownRow(header, data[i - 1]);
      assert CsvRows(data)[i] == DataLine(header, data[i - 1]);
    }
  }

  /** The encoder's lines are the table's records, the header unquoted and the rows quoted. */
  lemma TableLines(data: seq<JsObject>, quoted: seq<bool>)
    requires |data| > 0 && |data[0]| > 0 && PlainKeys(data[0])
    requires quoted == seq(|data| + 1, i requires 0 <= i < |data| + 1 => i > 0)
    ensures forall i :: 0 <= i < |data| + 1 ==> EncodableRecord(quoted[i], Table(data)[i])
    ensures EncodeLines(quoted, Table(data)) == CsvRows(data)
  {
    forall i | 0 <= i < |data| + 1
      ensures EncodableRecord(quoted[i], Table(data)[i])
      ensures EncodeRecord(quoted[i], Table(data)[i]) == CsvRows(data)[i]
    {
      LineEncoded(data, i);
    }
  }

  lemma {:induction false} EscapeAppend(a: string, b: string)
    ensures Escape(a + b) == Escape(a) + Escape(b)
  {
    if a != [] {
      assert (a + b)[1..] == a[1..] + b;
      EscapeAppend(a[1..], b);
    } else {
      assert a + b == b;
    }
  }

  lemma {:induction false} EscapeNoQuotes(s: string)
    requires forall i :: 0 <= i < |s| ==> s[i] != '"'
    ensures Escape(s) == s
  {
    if s != [] {
      EscapeNoQuotes(s[1..]);
      assert [s[0]] + s[1..] == s;
    }
  }

  // The example value `Acme, "Inc."`, its escaped text and its field.
  const ExampleValue: string := "Acme, \"Inc.\""
  const ExampleEscaped: string := "Acme, \"\"Inc.\"\""
  const ExampleField: string := "\"Acme, \"\"Inc.\"\"\""

  lemma ExampleSplit()
    ensures Escape(ExampleValue) == Escape("Acme, ") + (Escape("\"") + (Escape("Inc.") + Escape("\"")))
  {
    assert ExampleValue == "Acme, " + ("\"" + ("Inc." + "\""));
    EscapeAppend("Inc.", "\"");
    EscapeAppend("\"", "Inc." + "\"");
    EscapeAppend("Acme, ", "\"" + ("Inc." + "\""));
  }

  lemma ExampleHead()
    ensures Escape("Acme, ") == "Acme, "
  {
    EscapeNoQuotes("Acme, ");
  }

  lemma ExampleTail()
    ensures Escape("Inc.") == "Inc."
  {
    EscapeNoQuotes("Inc.");
  }

  lemma ExampleQuoteChar()
    ensures Escape("\"") == "\"\""
  {
    assert "\""[1..] == "";
  }

  /**
   * The escaped pieces of the example, `Acme, `, a doubled quote and `Inc.`,
   * make up its escaped text. The pieces are parameters so that the
   * concatenation is checked on its own, without unfolding `Escape`.
   */
  lemma ExampleJoin(e1: string, e2: string, e3: string)
    requires e1 == "Acme, " && e2 == "\"\"" && e3 == "Inc."
    ensures e1 + (e2 + (e3 + e2)) == ExampleEscaped
  {
  }

  /** Enclosing the example's escaped text in quotes gives its field. */
  lemma ExampleQuote(e: string)
    requires e == ExampleEscaped
    ensures "\"" + e + "\"" == ExampleField
  {
  }

  /** A value holding a comma and quotes, `Acme, "Inc."`, is written `"Acme, ""Inc."""` and reads back. */
  lemma QuotedCommaAndQuotes()
    ensures QuoteField(Str(ExampleValue)) == ExampleField
    ensures ParseField(ExampleField) == Some((ExampleValue, ""))
  {
    ExampleSplit();
    ExampleHead();
    ExampleTail();
    ExampleQuoteChar();
    ExampleJoin(Escape("Acme, "), Escape("\""), Escape("Inc."));
    ExampleQuote(Escape(ExampleValue));
    FieldRoundTrip(true, ExampleValue, "");
    assert EncodeField(true, ExampleValue) + "" == QuoteField(Str(ExampleValue));
  }
}
