/**
  Properties of the request decoder: how inline lines are split into
  tokens, how quoted tokens are unescaped, and that the RESP array
  encoding of a request decodes back to its (flattened) arguments.
 */
module ParserProperties {
  import opened Text
  import opened ParserSpec

  /** `s` holds `x` from position `p` on. */
  predicate At(s: Bytes, p: nat, x: Bytes) {
    p + |x| <= |s| && s[p..p + |x|] == x
  }

  lemma AtSplit(s: Bytes, p: nat, a: Bytes, b: Bytes)
    requires At(s, p, a + b)
    ensures At(s, p, a) && At(s, p + |a|, b)
  {
    assert s[p..p + |a|] == (a + b)[..|a|];
    assert s[p + |a|..p + |a| + |b|] == (a + b)[|a|..];
  }

  lemma AtIndex(s: Bytes, p: nat, x: Bytes, j: nat)
    requires At(s, p, x) && j < |x|
    ensures s[p + j] == x[j]
  {
    assert s[p..p + |x|][j] == x[j];
  }

  // ---------------------------------------------------------------------
  // Lines

  /** A line followed by a '\r' and one more byte is read back exactly. */
  lemma ReadLineOf(s: Bytes, p: nat, t: Bytes)
    requires NoCR(t) && At(s, p, t + ['\r']) && p + |t| + 1 < |s|
    ensures ReadLineAt(s, p) == LineRead(Some(t), p + |t| + 2)
  {
    AtSplit(s, p, t, ['\r']);
    AtIndex(s, p + |t|, ['\r'], 0);
    forall j | p <= j < p + |t| ensures s[j] != '\r' {
      AtIndex(s, p, t, j - p);
    }
    assert CrFrom(s, p) == p + |t|;
  }

  // ---------------------------------------------------------------------
  // Inline lines without quotes: the non-empty space-separated fields

  /** `strings.Split(s, " ")`: the pieces between single spaces, empty ones included. */
  function Split(s: Bytes): (r: seq<Bytes>)
    ensures |r| >= 1
    decreases |s|
  {
    if s == [] then [[]]
    else
      var rest := Split(s[1..]);
      if s[0] == ' ' then [[]] + rest else [[s[0]] + rest[0]] + rest[1..]
  }

  function NonEmpty(ps: seq<Bytes>): seq<Bytes>
    decreases |ps|
  {
    if ps == [] then [] else (if ps[0] == [] then [] else [ps[0]]) + NonEmpty(ps[1..])
  }

  function WidenAll(ws: seq<Bytes>): seq<Bytes>
    decreases |ws|
  {
    if ws == [] then [] else [Widen(ws[0])] + WidenAll(ws[1..])
  }

  /** The fields of a line: its non-empty space-separated pieces, in order. */
  function Fields(line: Bytes): seq<Bytes> {
    NonEmpty(Split(line))
  }

  lemma {:induction false} SplitWord(w: Bytes, r: Bytes)
    requires ' ' !in w
    ensures Split(w + r) == [w + Split(r)[0]] + Split(r)[1..]
    decreases |w|
  {
    if w != [] {
      SplitWord(w[1..], r);
      assert w[0] != ' ';
      assert (w + r)[0] == w[0];
      assert (w + r)[1..] == w[1..] + r;
      var rest := Split(w[1..] + r);
      assert rest[0] == w[1..] + Split(r)[0];
      assert rest[1..] == Split(r)[1..];
      assert Split(w + r) == [[w[0]] + rest[0]] + rest[1..];
      assert [w[0]] + (w[1..] + Split(r)[0]) == w + Split(r)[0];
    } else {
      assert w + r == r;
      assert Split(w + r) == Split(r);
      assert w + Split(r)[0] == Split(r)[0];
      assert Split(r) == [Split(r)[0]] + Split(r)[1..];
    }
  }

  lemma {:induction false} FieldsAfterSpaces(line: Bytes, i: nat, j: nat)
    requires i <= j <= |line|
    requires forall m :: i <= m < j ==> line[m] == ' '
    ensures NonEmpty(Split(line[i..])) == NonEmpty(Split(line[j..]))
    decreases j - i
  {
    if i < j {
      FieldsAfterSpaces(line, i + 1, j);
      assert line[i..][1..] == line[i + 1..];
    }
  }

  lemma {:induction false} FieldsOfWord(line: Bytes, j: nat, k: nat)
    requires j <= k <= |line|
    requires forall m :: j <= m < k ==> line[m] != ' '
    requires k == |line| || line[k] == ' '
    ensures NonEmpty(Split(line[j..])) == (if j == k then [] else [line[j..k]]) + NonEmpty(Split(line[k..]))
  {
    var w, r := line[j..k], line[k..];
    assert line[j..] == w + r;
    SplitWord(w, r);
    assert Split(r)[0] == [] by {
      if r != [] { assert r[0] == ' '; }
    }
    assert NonEmpty(Split(r)) == NonEmpty(Split(r)[1..]) by {
      assert Split(r) == [Split(r)[0]] + Split(r)[1..];
    }
    assert w + Split(r)[0] == w;
    assert ([w] + Split(r)[1..])[1..] == Split(r)[1..];
  }

  lemma {:induction false} InlineFromFields(line: Bytes, i: nat)
    requires i <= |line| && NoCR(line) && '"' !in line
    ensures InlineFrom(line, i) == Decoded(WidenAll(NonEmpty(Split(line[i..]))), None)
    decreases |line| - i
  {
    if i < |line| {
      var j := SkipSpaces(line, i);
      var k := WordEnd(line, j);
      assert j < |line| ==> line[j] != '"';
      assert ArgAt(line, i) == Scan(Widen(line[j..k]), None, k);
      assert k < |line| ==> line[k] == ' ';
      InlineFromFields(line, k);
      FieldsAfterSpaces(line, i, j);
      FieldsOfWord(line, j, k);
      if j == k {
        assert Widen(line[j..k]) == [];
      } else {
        assert |Widen(line[j..k])| >= 1;
      }
    }
  }

  /**
    A line with no '"' and no '\r' decodes to its non-empty space-separated
    fields, in order; only ' ' separates (a tab is part of a token). Each
    byte of an unquoted token passes through Go's `string(byte)`, which
    leaves ASCII alone and re-encodes a byte from 0x80 on as two bytes.
   */
  lemma InlineArgsAreFields(line: Bytes)
    requires NoCR(line) && '"' !in line
    ensures InlineArgs(line) == Decoded(WidenAll(Fields(line)), None)
  {
    var j := SkipSpaces(line, 0);
    InlineFromFields(line, j);
    FieldsAfterSpaces(line, 0, j);
    assert line[0..] == line;
  }

  // ---------------------------------------------------------------------
  // Quoted tokens

  /** How a client quotes a token for `parseString`: each '"' becomes `\"`. */
  function Escape(t: Bytes): (r: Bytes)
    ensures t != [] ==> |r| >= 1 && r[0] == (if t[0] == '"' then '\\' else t[0])
    decreases |t|
  {
    if t == [] then []
    else (if t[0] == '"' then ['\\', '"'] else [t[0]]) + Escape(t[1..])
  }

  /**
    Inside quotes `\"` stands for '"' and every other byte, a lone '\\'
    included, is copied; the first unescaped '"' closes the token. So any
    token that does not end in '\\' survives quoting, and the cursor stops
    just after the closing quote.
   */
  lemma {:induction false} QuotedDecodes(line: Bytes, i: nat, t: Bytes)
    requires t == [] || t[|t| - 1] != '\\'
    requires At(line, i, Escape(t) + ['"'])
    ensures QuotedAt(line, i) == Scan(t, None, i + |Escape(t) + ['"']|)
    decreases |t|
  {
    if t == [] {
      AtIndex(line, i, Escape(t) + ['"'], 0);
    } else {
      var w := if t[0] == '"' then 2 else 1;
      QuotedHead(line, i, t);
      assert t[1..] == [] || t[1..][|t[1..]| - 1] != '\\';
      QuotedDecodes(line, i + w, t[1..]);
      assert [t[0]] + t[1..] == t;
    }
  }

  /** The first byte of a quoted token: `\"` or a byte copied as it is. */
  lemma QuotedHead(line: Bytes, i: nat, t: Bytes)
    requires t != [] && t[|t| - 1] != '\\'
    requires At(line, i, Escape(t) + ['"'])
    ensures var w := if t[0] == '"' then 2 else 1;
      && At(line, i + w, Escape(t[1..]) + ['"'])
      && |Escape(t)| == w + |Escape(t[1..])|
      && QuotedAt(line, i) == Extend([t[0]], QuotedAt(line, i + w))
  {
    var head: Bytes := if t[0] == '"' then ['\\', '"'] else [t[0]];
    var tail := Escape(t[1..]) + ['"'];
    assert At(line, i, head) && At(line, i + |head|, tail) by {
      assert Escape(t) + ['"'] == head + tail;
      AtSplit(line, i, head, tail);
    }
    AtIndex(line, i, head, 0);
    if t[0] == '"' {
      AtIndex(line, i, head, 1);
    } else if t[0] == '\\' {
      assert t[1..] != [];
      AtIndex(line, i + 1, tail, 0);
    }
  }

  /** A quoted token as a whole: the cursor ends just past the closing quote. */
  lemma QuotedToken(line: Bytes, i: nat, t: Bytes)
    requires t == [] || t[|t| - 1] != '\\'
    requires At(line, i, ['"'] + Escape(t) + ['"'])
    ensures ArgAt(line, i) == Scan(t, None, i + |Escape(t)| + 2)
  {
    AtIndex(line, i, ['"'] + Escape(t) + ['"'], 0);
    assert ['"'] + Escape(t) + ['"'] == ['"'] + (Escape(t) + ['"']);
    AtSplit(line, i, ['"'], Escape(t) + ['"']);
    QuotedDecodes(line, i + 1, t);
  }

  /** A token ending in '\\' cannot be quoted: its closing quote is read as `\"`. */
  lemma TrailingBackslash(line: Bytes)
    requires line == ['"', 'a', '\\', '"']
    ensures ArgAt(line, 0) == Scan([], Some(UnbalancedQuotes), 4)
  {
    assert SkipSpaces(line, 0) == 0;
    assert QuotedAt(line, 3) == Scan([], None, 4);
    assert QuotedAt(line, 2) == Scan([], Some(UnbalancedQuotes), 4);
  }

  // ---------------------------------------------------------------------
  // RESP arrays

  /** A RESP request value as a client writes it. */
  datatype Resp = Integer(text: Bytes) | BulkString(data: Bytes) | Array(items: seq<Resp>)

  const CRLF: Bytes := ['\r', '\n']

  function Encode(v: Resp): (r: Bytes)
    ensures |r| >= 1
    decreases v
  {
    match v
    case Integer(t) => [':'] + t + CRLF
    case BulkString(b) => ['$'] + (Decimal(|b|) + CRLF + (b + CRLF))
    case Array(items) => ['*'] + (Decimal(|items|) + CRLF + EncodeAll(items))
  }

  function EncodeAll(items: seq<Resp>): Bytes
    decreases items
  {
    if items == [] then [] else Encode(items[0]) + EncodeAll(items[1..])
  }

  /** The arguments a value contributes: nested arrays are flattened in order. */
  function Flatten(v: Resp): seq<Bytes>
    decreases v
  {
    match v
    case Integer(t) => [t]
    case BulkString(b) => [b]
    case Array(items) => FlattenAll(items)
  }

  function FlattenAll(items: seq<Resp>): seq<Bytes>
    decreases items
  {
    if items == [] then [] else Flatten(items[0]) + FlattenAll(items[1..])
  }

  /**
    The values the decoder reads back: no '\r' inside a line, and no empty
    bulk string (after `$0` the decoder reads no line, so the `\r\n` that
    follows would be taken for two more elements).
   */
  predicate Encodable(v: Resp)
    decreases v
  {
    match v
    case Integer(t) => NoCR(t)
    case BulkString(b) => b != [] && NoCR(b)
    case Array(items) => EncodableAll(items)
  }

  predicate EncodableAll(items: seq<Resp>)
    decreases items
  {
    items == [] || (Encodable(items[0]) && EncodableAll(items[1..]))
  }

  lemma DecimalLine(s: Bytes, p: nat, n: nat, rest: Bytes)
    requires At(s, p, Decimal(n) + CRLF + rest)
    ensures ReadLineAt(s, p) == LineRead(Some(Decimal(n)), p + |Decimal(n)| + 2)
    ensures At(s, p + |Decimal(n)| + 2, rest)
  {
    var d := Decimal(n);
    assert d + CRLF + rest == (d + ['\r']) + (['\n'] + rest);
    AtSplit(s, p, d + ['\r'], ['\n'] + rest);
    assert NoCR(d) by {
      forall k | 0 <= k < |d| ensures d[k] != '\r' { assert IsDigit(d[k]); }
    }
    ReadLineOf(s, p, d);
    assert d + CRLF + rest == (d + CRLF) + rest;
    AtSplit(s, p, d + CRLF, rest);
  }

  lemma IntegerDecodes(s: Bytes, p: nat, t: Bytes)
    requires NoCR(t) && At(s, p, Encode(Integer(t)))
    ensures ElementAt(s, p) == Parsed(Decoded([t], None), p + |Encode(Integer(t))|)
  {
    var e := Encode(Integer(t));
    AtIndex(s, p, e, 0);
    assert e == [':'] + ((t + ['\r']) + ['\n']);
    AtSplit(s, p, [':'], (t + ['\r']) + ['\n']);
    AtSplit(s, p + 1, t + ['\r'], ['\n']);
    ReadLineOf(s, p + 1, t);
  }

  /** The body of a bulk string: one line of exactly the announced length. */
  lemma BulkBody(s: Bytes, q: nat, b: Bytes)
    requires b != [] && NoCR(b) && At(s, q, b + CRLF)
    ensures BulkAt(s, q, |b|, []) == LineRead(Some(b), q + |b| + 2)
  {
    assert b + CRLF == (b + ['\r']) + ['\n'];
    AtSplit(s, q, b + ['\r'], ['\n']);
    ReadLineOf(s, q, b);
    assert [] + b == b;
  }

  lemma BulkDecodes(s: Bytes, p: nat, b: Bytes)
    requires b != [] && NoCR(b) && At(s, p, Encode(BulkString(b)))
    ensures ElementAt(s, p) == Parsed(Decoded([b], None), p + |Encode(BulkString(b))|)
  {
    var d := Decimal(|b|);
    var q := p + 1 + |d| + 2;
    HeaderLine(s, p, '$', |b|, b + CRLF);
    BulkBody(s, q, b);
    AtoiDecimal(|b|);
    assert b[..|b|] == b;
    DollarCase(s, p, d, q, b, q + |b| + 2);
  }

  lemma DollarCase(s: Bytes, p: nat, d: Bytes, q: nat, body: Bytes, n: nat)
    requires p < |s| && s[p] == '$'
    requires ReadLineAt(s, p + 1) == LineRead(Some(d), q)
    requires 0 <= Atoi(d) <= |body|
    requires q <= |s| && BulkAt(s, q, Atoi(d), []) == LineRead(Some(body), n)
    ensures ElementAt(s, p) == Parsed(Decoded([body[..Atoi(d)]], None), n)
  {
  }

  lemma {:induction false} ArrayDecodes(s: Bytes, p: nat, items: seq<Resp>)
    requires EncodableAll(items) && At(s, p, Encode(Array(items)))
    ensures ElementAt(s, p) == Parsed(Decoded(FlattenAll(items), None), p + |Encode(Array(items))|)
    decreases items, 1
  {
    var d := Decimal(|items|);
    var q := p + 1 + |d| + 2;
    ArrayHeader(s, p, items);
    AtoiDecimal(|items|);
    ElementsDecode(s, q, items);
    StarCase(s, p, d, q, FlattenAll(items), q + |EncodeAll(items)|);
  }

  /** A header line `c n\r\n` in front of `body`: the type byte, then the line `n`. */
  lemma HeaderLine(s: Bytes, p: nat, c: Byte, n: nat, body: Bytes)
    requires At(s, p, [c] + (Decimal(n) + CRLF + body))
    ensures p < |s| && s[p] == c
    ensures ReadLineAt(s, p + 1) == LineRead(Some(Decimal(n)), p + 1 + |Decimal(n)| + 2)
    ensures At(s, p + 1 + |Decimal(n)| + 2, body)
  {
    AtSplit(s, p, [c], Decimal(n) + CRLF + body);
    AtIndex(s, p, [c], 0);
    DecimalLine(s, p + 1, n, body);
  }

  /** The `*n\r\n` header of an encoded array is read back as the line `n`. */
  lemma ArrayHeader(s: Bytes, p: nat, items: seq<Resp>)
    requires At(s, p, Encode(Array(items)))
    ensures p < |s| && s[p] == '*'
    ensures ReadLineAt(s, p + 1) == LineRead(Some(Decimal(|items|)), p + 1 + |Decimal(|items|)| + 2)
    ensures At(s, p + 1 + |Decimal(|items|)| + 2, EncodeAll(items))
    ensures |Encode(Array(items))| == 1 + |Decimal(|items|)| + 2 + |EncodeAll(items)|
  {
    HeaderLine(s, p, '*', |items|, EncodeAll(items));
  }

  lemma StarCase(s: Bytes, p: nat, d: Bytes, q: nat, args: seq<Bytes>, r: nat)
    requires p < |s| && s[p] == '*'
    requires ReadLineAt(s, p + 1) == LineRead(Some(d), q)
    requires q <= |s| && ElementsAt(s, q, Atoi(d)) == Parsed(Decoded(args, None), r)
    ensures ElementAt(s, p) == Parsed(Decoded(args, None), r)
  {
  }

  lemma {:induction false} ElementDecodes(s: Bytes, p: nat, v: Resp)
    requires Encodable(v) && At(s, p, Encode(v))
    ensures p < |s|
    ensures ElementAt(s, p) == Parsed(Decoded(Flatten(v), None), p + |Encode(v)|)
    decreases v, 2
  {
    match v
    case Integer(t) => IntegerDecodes(s, p, t);
    case BulkString(b) => BulkDecodes(s, p, b);
    case Array(items) => ArrayDecodes(s, p, items);
  }

  lemma {:induction false} ElementsDecode(s: Bytes, p: nat, items: seq<Resp>)
    requires EncodableAll(items) && At(s, p, EncodeAll(items))
    ensures ElementsAt(s, p, |items|) == Parsed(Decoded(FlattenAll(items), None), p + |EncodeAll(items)|)
    decreases items, 0
  {
    if items != [] {
      var first, rest := items[0], items[1..];
      var q := p + |Encode(first)|;
      var r := q + |EncodeAll(rest)|;
      assert At(s, q, EncodeAll(rest)) && p + |EncodeAll(items)| == r by {
        AtEncodeAll(s, p, items);
      }
      assert p < |s| && ElementAt(s, p) == Parsed(Decoded(Flatten(first), None), q) by {
        AtEncodeAll(s, p, items);
        ElementDecodes(s, p, first);
      }
      assert ElementsAt(s, q, |rest|) == Parsed(Decoded(FlattenAll(rest), None), r) by {
        ElementsDecode(s, q, rest);
      }
      ElementsCons(s, p, |rest|, Flatten(first), q, FlattenAll(rest), r);
      assert |items| == |rest| + 1;
    }
  }

  lemma AtEncodeAll(s: Bytes, p: nat, items: seq<Resp>)
    requires items != [] && At(s, p, EncodeAll(items))
    ensures At(s, p, Encode(items[0])) && At(s, p + |Encode(items[0])|, EncodeAll(items[1..]))
    ensures |EncodeAll(items)| == |Encode(items[0])| + |EncodeAll(items[1..])|
  {
    var a, b := Encode(items[0]), EncodeAll(items[1..]);
    assert EncodeAll(items) == a + b;
    AtSplit(s, p, a, b);
  }

  lemma ElementsCons(s: Bytes, p: nat, count: nat, first: seq<Bytes>, q: nat, rest: seq<Bytes>, r: nat)
    requires p < |s|
    requires ElementAt(s, p) == Parsed(Decoded(first, None), q)
    requires q <= |s| && ElementsAt(s, q, count) == Parsed(Decoded(rest, None), r)
    ensures ElementsAt(s, p, count + 1) == Parsed(Decoded(first + rest, None), r)
  {
  }

  /**
    Round trip: a request written as a RESP array, followed by anything,
    decodes to the flattened list of its elements, and the reader stops
    exactly at its end.
   */
  lemma RequestDecodes(items: seq<Resp>, tail: Bytes)
    requires EncodableAll(items)
    ensures Next(Encode(Array(items)) + tail, 0)
         == Parsed(Decoded(FlattenAll(items), None), |Encode(Array(items))|)
  {
    var s := Encode(Array(items)) + tail;
    assert At(s, 0, Encode(Array(items))) by { assert s[..|Encode(Array(items))|] == Encode(Array(items)); }
    ElementDecodes(s, 0, Array(items));
  }

  function BulkStrings(args: seq<Bytes>): (r: seq<Resp>)
    ensures |r| == |args|
    decreases |args|
  {
    if args == [] then [] else [BulkString(args[0])] + BulkStrings(args[1..])
  }

  /** How a client sends an argument list: `*n\r\n` and then `$len\r\ns\r\n` per argument. */
  function EncodeRequest(args: seq<Bytes>): Bytes {
    Encode(Array(BulkStrings(args)))
  }

  lemma {:induction false} BulkStringsEncodable(args: seq<Bytes>)
    requires forall k :: 0 <= k < |args| ==> args[k] != [] && NoCR(args[k])
    ensures EncodableAll(BulkStrings(args)) && FlattenAll(BulkStrings(args)) == args
    decreases |args|
  {
    if args != [] {
      BulkStringsEncodable(args[1..]);
      assert [args[0]] + args[1..] == args;
    }
  }

  /**
    A list of non-empty, '\r'-free arguments sent as a RESP array of bulk
    strings decodes back to the same list.
   */
  lemma ArgumentsRoundTrip(args: seq<Bytes>, tail: Bytes)
    requires forall k :: 0 <= k < |args| ==> args[k] != [] && NoCR(args[k])
    ensures Next(EncodeRequest(args) + tail, 0) == Parsed(Decoded(args, None), |EncodeRequest(args)|)
  {
    BulkStringsEncodable(args);
    RequestDecodes(BulkStrings(args), tail);
  }

  lemma BulkStringBytes(b: Bytes, n: nat)
    requires |b| == n && n < 10
    ensures Encode(BulkString(b)) == ['$', DigitChar(n), '\r', '\n'] + b + CRLF
  {
    assert Decimal(n) == [DigitChar(n)];
  }

  lemma GetRequestItems(args: seq<Bytes>) returns (items: seq<Resp>)
    requires args == ["GET", "x"]
    ensures items == [BulkString("GET"), BulkString("x")] && BulkStrings(args) == items
    ensures EncodeAll(items) == "$3\r\nGET\r\n" + "$1\r\nx\r\n"
  {
    items := [BulkString("GET"), BulkString("x")];
    assert BulkStrings(args[1..]) == [BulkString("x")];
    BulkStringBytes("GET", 3);
    BulkStringBytes("x", 1);
    assert EncodeAll(items[1..]) == Encode(items[1]) + EncodeAll([]);
  }

  lemma GetRequestBytes(args: seq<Bytes>)
    requires args == ["GET", "x"]
    ensures EncodeRequest(args) == "*2\r\n$3\r\nGET\r\n$1\r\nx\r\n"
  {
    var items := GetRequestItems(args);
    assert Decimal(2) == "2";
    assert Encode(Array(items)) == "*2\r\n" + ("$3\r\nGET\r\n" + "$1\r\nx\r\n");
  }

  /** The example request `*2\r\n$3\r\nGET\r\n$1\r\nx\r\n`. */
  lemma GetRequestExample()
    ensures Next("*2\r\n$3\r\nGET\r\n$1\r\nx\r\n", 0).out == Decoded(["GET", "x"], None)
  {
    var args: seq<Bytes> := ["GET", "x"];
    GetRequestBytes(args);
    ArgumentsRoundTrip(args, []);
    assert EncodeRequest(args) + [] == EncodeRequest(args);
  }

  // ---------------------------------------------------------------------
  // Inputs the rest of the server does not expect

  /** A count that is not a positive number (`*0`, `*-3`, `*x`) yields no arguments and no error. */
  lemma NonPositiveCount(s: Bytes, p: nat)
    requires p <= |s| && ReadLineAt(s, p).text.Some? && Atoi(ReadLineAt(s, p).text.value) <= 0
    ensures RespArrayAt(s, p) == Parsed(Decoded([], None), ReadLineAt(s, p).next)
  {
  }

  /** A line of spaces yields no arguments and no error. */
  lemma BlankLine(line: Bytes)
    requires forall k :: 0 <= k < |line| ==> line[k] == ' '
    ensures NoCR(line) && InlineArgs(line) == Decoded([], None)
  {
    assert NoCR(line) by {
      forall k | 0 <= k < |line| ensures line[k] != '\r' { }
    }
  }

  /** `$` with a negative length: `text[:length]` is out of bounds and the source panics. */
  lemma NegativeLength(s: Bytes, p: nat)
    requires p < |s| && s[p] == '$'
    requires ReadLineAt(s, p + 1).text.Some? && Atoi(ReadLineAt(s, p + 1).text.value) < 0
    ensures ElementAt(s, p) == Parsed(Decoded([], Some(SliceBounds)), ReadLineAt(s, p + 1).next)
  {
  }

  /** An inline request whose first byte is '\r' never makes progress in the source. */
  lemma LeadingCarriageReturn(s: Bytes, p: nat)
    requires p < |s| && s[p] == '\r' && ReadLineAt(s, p + 1).text.Some?
    ensures Next(s, p).out == Decoded([], Some(NoProgress))
  {
  }

  lemma ZeroCountExample()
    ensures Next("*0\r\n", 0).out == Decoded([], None)
  {
    ReadLineOf("*0\r\n", 1, "0");
  }

  lemma BlankLineExample()
    ensures Next("   \r\n", 0).out == Decoded([], None)
  {
    ReadLineOf("   \r\n", 1, "  ");
    BlankLine("   ");
  }

  lemma NegativeLengthExample()
    ensures Next("*1\r\n$-1\r\n", 0).out == Decoded([], Some(SliceBounds))
  {
    var s: Bytes := "*1\r\n$-1\r\n";
    ReadLineOf(s, 1, "1");
    assert Atoi("1") == 1;
    assert s[5..8] == "-1" + ['\r'];
    ReadLineOf(s, 5, "-1");
    assert Atoi("-1") == -1;
    NegativeLength(s, 4);
  }

  /**
    Bulk strings are not binary-safe: the payload is read line by line, so
    `$2` followed by the lines `a` and `b` gives the one argument `ab`, the
    CRLF between the two lines dropped.
   */
  lemma BulkAcrossLines()
    ensures ElementAt("$2\r\na\r\nb\r\n", 0) == Parsed(Decoded(["ab"], None), 10)
  {
    var s: Bytes := "$2\r\na\r\nb\r\n";
    BulkAcrossLinesAt(s);
  }

  lemma BulkAcrossLinesAt(s: Bytes)
    requires |s| == 10 && s[0] == '$' && s[1] == '2' && s[4] == 'a' && s[7] == 'b'
    requires s[2] == '\r' && s[5] == '\r' && s[8] == '\r'
    ensures ElementAt(s, 0) == Parsed(Decoded(["ab"], None), 10)
  {
    OneByteLine(s, 1);
    OneByteLine(s, 4);
    OneByteLine(s, 7);
    assert [s[1]] == Decimal(2);
    AtoiDecimal(2);
    assert [s[4]] + [s[7]] == "ab";
    assert BulkAt(s, 10, 2, "ab") == LineRead(Some("ab"), 10);
    assert BulkAt(s, 7, 2, [s[4]]) == LineRead(Some("ab"), 10);
    assert [] + [s[4]] == [s[4]];
    assert BulkAt(s, 4, 2, []) == LineRead(Some("ab"), 10);
    DollarCase(s, 0, [s[1]], 4, "ab", 10);
    assert "ab"[..2] == "ab";
  }

  /** A line of one byte. */
  lemma OneByteLine(s: Bytes, p: nat)
    requires p + 2 < |s| && s[p] != '\r' && s[p + 1] == '\r'
    ensures ReadLineAt(s, p) == LineRead(Some([s[p]]), p + 3)
  {
    assert CrFrom(s, p) == p + 1;
    assert s[p..p + 1] == [s[p]];
  }

  /** An element with any other lead byte adds nothing and consumes only that byte. */
  lemma UnknownLeadByte(s: Bytes, p: nat)
    requires p < |s| && s[p] != ':' && s[p] != '$' && s[p] != '*'
    ensures ElementAt(s, p) == Parsed(Decoded([], None), p + 1)
  {
  }

  /** An inline request: one line, not starting with '*' or '\r', then CRLF. */
  lemma NextInline(s: Bytes, line: Bytes)
    requires |line| >= 1 && line[0] != '*' && line[0] != '\r' && NoCR(line)
    requires s == line + CRLF
    ensures Next(s, 0).out == InlineArgs(line)
  {
    assert s[1..|line| + 1] == line[1..] + ['\r'];
    ReadLineOf(s, 1, line[1..]);
    assert [s[0]] + line[1..] == line;
    assert InlineLine(s, 0) == Some(line);
  }

  /** Spaces in front of a token are skipped. */
  lemma SpacesThen(line: Bytes, i: nat, j: nat)
    requires i <= j < |line| && line[j] != ' '
    requires forall m :: i <= m < j ==> line[m] == ' '
    ensures ArgAt(line, i) == ArgAt(line, j)
  {
    assert SkipSpaces(line, i) == j;
    assert SkipSpaces(line, j) == j;
  }

  /** The unquoted token from `j` ends at `e` when no ' ' or '\r' comes before `e` and one (or the end) is at `e`. */
  lemma {:induction false} WordEndAt(line: Bytes, j: nat, e: nat)
    requires j <= e <= |line|
    requires forall m :: j <= m < e ==> line[m] != ' ' && line[m] != '\r'
    requires e == |line| || line[e] == ' ' || line[e] == '\r'
    ensures WordEnd(line, j) == e
    decreases e - j
  {
    if j < e {
      WordEndAt(line, j + 1, e);
    }
  }

  /** An unquoted token runs to the next ' ' or the end of the line, and is widened. */
  lemma WordToken(line: Bytes, j: nat, w: Bytes)
    requires At(line, j, w) && w != [] && w[0] != ' ' && w[0] != '"'
    requires forall m :: 0 <= m < |w| ==> w[m] != ' ' && w[m] != '\r'
    requires j + |w| == |line| || line[j + |w|] == ' '
    ensures ArgAt(line, j) == Scan(Widen(w), None, j + |w|)
  {
    var e := j + |w|;
    forall m | j <= m < e ensures line[m] != ' ' && line[m] != '\r' {
      AtIndex(line, j, w, m - j);
    }
    WordEndAt(line, j, e);
    AtIndex(line, j, w, 0);
    assert line[j..e] == w;
    BareArg(line, j, e);
  }

  lemma BareArg(line: Bytes, j: nat, e: nat)
    requires j < |line| && line[j] != ' ' && line[j] != '"'
    requires j <= e <= |line| && WordEnd(line, j) == e
    ensures ArgAt(line, j) == Scan(Widen(line[j..e]), None, e)
  {
    assert SkipSpaces(line, j) == j;
  }

  /** One more token in front of the rest of an inline line. */
  lemma InlineToken(line: Bytes, i: nat, arg: Bytes, next: nat)
    requires i < |line| && NoCR(line)
    requires ArgAt(line, i) == Scan(arg, None, next)
    ensures InlineFrom(line, i) == Prepend(if arg == [] then [] else [arg], InlineFrom(line, next))
  {
  }

  /** An empty quoted token `""` adds nothing; the next token may follow it directly. */
  lemma EmptyQuotedDropped(line: Bytes, i: nat)
    requires NoCR(line) && i + 2 <= |line| && line[i] == '"' && line[i + 1] == '"'
    ensures InlineFrom(line, i) == InlineFrom(line, i + 2)
  {
    EmptyQuotedToken(line, i);
    InlineToken(line, i, [], i + 2);
    assert [] + InlineFrom(line, i + 2).args == InlineFrom(line, i + 2).args;
  }

  lemma EmptyQuotedToken(line: Bytes, i: nat)
    requires i + 2 <= |line| && line[i] == '"' && line[i + 1] == '"'
    ensures ArgAt(line, i) == Scan([], None, i + 2)
  {
    assert SkipSpaces(line, i) == i;
    assert QuotedAt(line, i + 1) == Scan([], None, i + 2);
  }

  lemma {:induction false} QuotedUnclosed(line: Bytes, i: nat)
    requires i <= |line|
    requires forall m :: i <= m < |line| ==> line[m] != '"'
    ensures QuotedAt(line, i) == Scan([], Some(UnbalancedQuotes), |line|)
    decreases |line| - i
  {
    if i < |line| {
      QuotedUnclosed(line, i + 1);
    }
  }

  /**
    A quote that is never closed fails the line with "unbalanced quotes",
    and the tokens before it stay in the result: the quote-free text in
    front of it contributes its fields, as a line without quotes would.
   */
  lemma {:induction false} UnclosedQuote(line: Bytes, i: nat, j: nat)
    requires NoCR(line) && i <= j < |line| && line[j] == '"'
    requires i == j || line[j - 1] == ' '
    requires forall m :: i <= m < j ==> line[m] != '"'
    requires forall m :: j < m < |line| ==> line[m] != '"'
    ensures InlineFrom(line, i) == Decoded(WidenAll(Fields(line[i..j])), Some(UnbalancedQuotes))
    decreases j - i
  {
    var sp := SkipSpaces(line, i);
    assert sp <= j;
    PrefixFieldsAfterSpaces(line, i, sp, j);
    if sp == j {
      assert Fields(line[j..j]) == [] by {
        assert line[j..j] == [];
      }
      assert ArgAt(line, i) == Scan([], Some(UnbalancedQuotes), |line|) by {
        QuotedUnclosed(line, j + 1);
      }
    } else {
      var k := WordEnd(line, sp);
      var w := line[sp..k];
      assert k < j by {
        assert sp <= j - 1 && line[j - 1] == ' ';
      }
      assert ArgAt(line, i) == Scan(Widen(w), None, k) by {
        assert line[sp] != '"';
      }
      assert Widen(w) != [] by {
        assert |w| >= 1;
      }
      InlineToken(line, i, Widen(w), k);
      UnclosedQuote(line, k, j);
      PrefixFieldsOfWord(line, sp, k, j);
      assert WidenAll([w] + Fields(line[k..j])) == [Widen(w)] + WidenAll(Fields(line[k..j]));
    }
  }

  /** Spaces at the front of `line[i..j]` do not change its fields. */
  lemma PrefixFieldsAfterSpaces(line: Bytes, i: nat, sp: nat, j: nat)
    requires i <= sp <= j <= |line|
    requires forall m :: i <= m < sp ==> line[m] == ' '
    ensures Fields(line[i..j]) == Fields(line[sp..j])
  {
    var pre := line[..j];
    assert pre[i..] == line[i..j];
    assert pre[sp..] == line[sp..j];
    FieldsAfterSpaces(pre, i, sp);
  }

  /** A non-empty word at the front of `line[sp..j]`, ended by a space, is its first field. */
  lemma PrefixFieldsOfWord(line: Bytes, sp: nat, k: nat, j: nat)
    requires sp < k < j <= |line|
    requires forall m :: sp <= m < k ==> line[m] != ' '
    requires line[k] == ' '
    ensures Fields(line[sp..j]) == [line[sp..k]] + Fields(line[k..j])
  {
    var pre := line[..j];
    FieldsOfWord(pre, sp, k);
    assert pre[sp..k] == line[sp..k];
    assert pre[sp..] == line[sp..j];
    assert pre[k..] == line[k..j];
  }

  /** In `a "b` the quote is never closed: the line fails, and `a` is kept. */
  lemma UnclosedQuoteExample()
    ensures InlineArgs("a \"b") == Decoded(["a"], Some(UnbalancedQuotes))
  {
    var line: Bytes := "a \"b";
    var pre: Bytes := "a ";
    assert line[0..2] == pre;
    assert Fields(pre) == ["a"] by {
      assert pre[0..] == pre && pre[0..1] == "a" && pre[2..] == [];
      FieldsOfWord(pre, 0, 1);
      FieldsAfterSpaces(pre, 1, 2);
      assert NonEmpty(Split([])) == [] by {
        assert NonEmpty([[]]) == [] + NonEmpty([]);
      }
    }
    assert InlineFrom(line, 0) == Decoded(WidenAll(Fields(pre)), Some(UnbalancedQuotes)) by {
      UnclosedQuote(line, 0, 2);
    }
    assert SkipSpaces(line, 0) == 0;
    assert WidenAll(["a"]) == ["a"] by {
      WidenAscii("a");
    }
  }

  /**
    An unquoted byte from 0x80 on reaches the command as two bytes (its
    UTF-8 encoding as a code point), while inside quotes it is kept as it is.
   */
  lemma HighByteToken(line: Bytes, j: nat, b: Byte)
    requires b as int >= 0x80 && At(line, j, [b]) && (j + 1 == |line| || line[j + 1] == ' ')
    ensures ArgAt(line, j) == Scan(RuneOf(b), None, j + 1)
    ensures |RuneOf(b)| == 2 && RuneOf(b) != [b]
  {
    WordToken(line, j, [b]);
    assert Widen([b]) == Widen([]) + RuneOf(b);
  }

  /** The same byte between quotes is kept unchanged. */
  lemma QuotedHighByte(line: Bytes, j: nat, b: Byte)
    requires b != '"' && b != '\\' && At(line, j, ['"', b, '"'])
    ensures ArgAt(line, j) == Scan([b], None, j + 3)
  {
    assert Escape([b]) == [b];
    assert ['"'] + Escape([b]) + ['"'] == ['"', b, '"'];
    QuotedToken(line, j, [b]);
  }

  /** The last token of `SET  "a b" 1`. */
  lemma SetExampleLast(line: Bytes)
    requires NoCR(line) && |line| == 12 && line[10] == ' ' && line[11] == '1'
    ensures InlineFrom(line, 10) == Decoded(["1"], None)
  {
    SetExampleOne(line);
    InlineToken(line, 10, "1", 12);
    assert ["1"] + [] == ["1"];
  }

  lemma SetExampleOne(line: Bytes)
    requires |line| == 12 && line[10] == ' ' && line[11] == '1'
    ensures ArgAt(line, 10) == Scan("1", None, 12)
  {
    assert SkipSpaces(line, 10) == 11 by {
      assert SkipSpaces(line, 11) == 11;
    }
    assert WordEnd(line, 11) == 12;
    assert Widen(line[11..12]) == "1" by {
      assert line[11..12] == ['1'];
      assert Widen(['1']) == Widen([]) + RuneOf('1');
    }
  }

  /** The quoted token of `SET  "a b" 1`, and what follows it. */
  lemma SetExampleQuoted(line: Bytes)
    requires NoCR(line) && |line| == 12 && line[3] == ' ' && line[4] == ' '
    requires line[5..10] == ['"', 'a', ' ', 'b', '"'] && line[10] == ' ' && line[11] == '1'
    ensures InlineFrom(line, 3) == Decoded(["a b", "1"], None)
  {
    SetExampleQuotedArg(line);
    InlineToken(line, 3, "a b", 10);
    SetExampleLast(line);
  }

  lemma SetExampleQuotedArg(line: Bytes)
    requires |line| == 12 && line[3] == ' ' && line[4] == ' ' && line[5..10] == ['"', 'a', ' ', 'b', '"']
    ensures ArgAt(line, 3) == Scan("a b", None, 10)
  {
    assert Escape("a b") == "a b";
    assert At(line, 5, ['"'] + Escape("a b") + ['"']);
    QuotedToken(line, 5, "a b");
    SpacesThen(line, 3, 5);
  }

  lemma SetExampleFirst(line: Bytes)
    requires |line| == 12 && line[..3] == "SET" && line[3] == ' '
    ensures ArgAt(line, 0) == Scan("SET", None, 3)
  {
    assert At(line, 0, "SET");
    WordToken(line, 0, "SET");
    WidenAscii("SET");
  }

  /**
    The inline request `SET  "a b" 1`: a word, a quoted token holding a
    space after two spaces, and a word.
   */
  lemma InlineSetExample(line: Bytes)
    requires line == "SET  \"a b\" 1"
    ensures NoCR(line) && InlineArgs(line) == Decoded(["SET", "a b", "1"], None)
  {
    assert NoCR(line);
    assert line[5..10] == ['"', 'a', ' ', 'b', '"'] && line[..3] == "SET";
    SetExampleQuoted(line);
    SetExampleFirst(line);
    assert SkipSpaces(line, 0) == 0;
    InlineToken(line, 0, "SET", 3);
  }
}
