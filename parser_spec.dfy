/**
  What the request decoder of `parser/parser.go` computes, as functions of
  the bytes the connection delivers. Positions are absolute indices into
  that byte sequence (`p`, `next`) or into the current inline line (`i`),
  so that the imperative `Parser` class can be proved to follow these
  functions step by step.
 */
module ParserSpec {
  import opened Text

  /** Why a request could not be decoded. */
  datatype Error =
    | EndOfStream       // the reader ran out of bytes (Go's io.EOF)
    | UnbalancedQuotes  // the error "unbalanced quotes in request"
    | SliceBounds       // `text[:length]` with a negative length: the source panics
    | NoProgress        // an inline line that starts with '\r': the source loops forever

  /** Go's `(cmd, err)` pair: the arguments gathered so far and the error, if any. */
  datatype Decoded = Decoded(args: seq<Bytes>, err: Option<Error>)

  /** A decoding step together with the read position after it. */
  datatype Parsed = Parsed(out: Decoded, next: nat)

  /** A line (or bulk text) read from the stream, `None` on end of stream. */
  datatype LineRead = LineRead(text: Option<Bytes>, next: nat)

  /** One inline token and the line position after it. */
  datatype Scan = Scan(arg: Bytes, err: Option<Error>, next: nat)

  function Prepend(args: seq<Bytes>, d: Decoded): Decoded {
    Decoded(args + d.args, d.err)
  }

  /** Puts `prefix` in front of a token, unless the token failed (a failed token carries no text). */
  function Extend(prefix: Bytes, r: Scan): Scan {
    if r.err.Some? then r else Scan(prefix + r.arg, None, r.next)
  }

  predicate NoCR(s: Bytes) {
    '\r' !in s
  }

  // ---------------------------------------------------------------------
  // Reading lines from the stream

  /** The position of the first '\r' at or after `p`, or `|s|` if there is none. */
  function CrFrom(s: Bytes, p: nat): (k: nat)
    requires p <= |s|
    ensures p <= k <= |s|
    ensures k < |s| ==> s[k] == '\r'
    ensures forall j :: p <= j < k ==> s[j] != '\r'
    decreases |s| - p
  {
    if p == |s| || s[p] == '\r' then p else CrFrom(s, p + 1)
  }

  /**
    `readLine`: the bytes up to the next '\r', which is consumed together
    with exactly one more byte (never checked to be '\n'). If the stream
    ends before that, the read fails and the reader has consumed everything.
   */
  function ReadLineAt(s: Bytes, p: nat): (r: LineRead)
    requires p <= |s|
    ensures r.next <= |s|
    ensures r.text.Some? ==>
      && r.next == p + |r.text.value| + 2
      && s[p..p + |r.text.value|] == r.text.value
      && NoCR(r.text.value)
      && s[p + |r.text.value|] == '\r'
    ensures r.text.None? ==>
      && r.next == |s|
      && forall j :: p <= j < |s| - 1 ==> s[j] != '\r'
  {
    var k := CrFrom(s, p);
    if k + 1 < |s| then LineRead(Some(s[p..k]), k + 2) else LineRead(None, |s|)
  }

  // ---------------------------------------------------------------------
  // Inline requests

  /** `for current() == ' ' { index++ }`: past the run of spaces starting at `i`. */
  function SkipSpaces(line: Bytes, i: nat): (j: nat)
    requires i <= |line|
    ensures i <= j <= |line|
    ensures forall m :: i <= m < j ==> line[m] == ' '
    ensures j < |line| ==> line[j] != ' '
    decreases |line| - i
  {
    if i < |line| && line[i] == ' ' then SkipSpaces(line, i + 1) else i
  }

  /** The end of an unquoted token starting at `j`: the next ' ', '\r' or the end of the line. */
  function WordEnd(line: Bytes, j: nat): (k: nat)
    requires j <= |line|
    ensures j <= k <= |line|
    ensures forall m :: j <= m < k ==> line[m] != ' ' && line[m] != '\r'
    ensures k < |line| ==> line[k] == ' ' || line[k] == '\r'
    decreases |line| - j
  {
    if j == |line| || line[j] == ' ' || line[j] == '\r' then j else WordEnd(line, j + 1)
  }

  /**
    Go's `string(b)` for a byte `b`: the UTF-8 encoding of the code point
    `b`, so a byte from 0x80 on becomes two bytes.
   */
  function RuneOf(b: Byte): (r: Bytes)
    ensures b as int < 0x80 ==> r == [b]
    ensures b as int >= 0x80 ==>
      && |r| == 2
      && 0xC2 <= r[0] as int <= 0xC3 && 0x80 <= r[1] as int < 0xC0
      && (r[0] as int - 0xC0) * 64 + (r[1] as int - 0x80) == b as int
  {
    if b as int < 0x80 then [b]
    else [(0xC0 + b as int / 64) as char, (0x80 + b as int % 64) as char]
  }

  /** An unquoted token as `parserArg` builds it, one `string(current())` per byte. */
  function Widen(w: Bytes): (r: Bytes)
    ensures |r| >= |w|
    decreases |w|
  {
    if w == [] then [] else Widen(w[..|w| - 1]) + RuneOf(w[|w| - 1])
  }

  /** Widening leaves ASCII text as it is. */
  lemma {:induction false} WidenAscii(w: Bytes)
    requires IsAscii(w)
    ensures Widen(w) == w
    decreases |w|
  {
    if w != [] {
      WidenAscii(w[..|w| - 1]);
      assert w[..|w| - 1] + [w[|w| - 1]] == w;
    }
  }

  /**
    `parseString`, entered just after an opening '"': `\"` stands for '"',
    every other byte (a lone '\\' included) is copied, and the first other
    '"' closes the token. Without a closing quote the token fails.
   */
  function QuotedAt(line: Bytes, i: nat): (r: Scan)
    requires i <= |line|
    ensures r.err.Some? ==> r == Scan([], Some(UnbalancedQuotes), |line|)
    ensures r.err.None? ==> i < r.next <= |line| && line[r.next - 1] == '"'
    decreases |line| - i
  {
    if i == |line| then Scan([], Some(UnbalancedQuotes), i)
    else if line[i] == '"' then Scan([], None, i + 1)
    else if line[i] == '\\' && i + 1 < |line| && line[i + 1] == '"' then Extend(['"'], QuotedAt(line, i + 2))
    else Extend([line[i]], QuotedAt(line, i + 1))
  }

  /**
    `parserArg`: skip spaces, then read a quoted token or an unquoted one.
    It moves the cursor forward exactly when the byte under it is not a
    literal '\r'.
   */
  function ArgAt(line: Bytes, i: nat): (r: Scan)
    requires i <= |line|
    ensures i <= r.next <= |line|
    ensures r.err.Some? ==> r == Scan([], Some(UnbalancedQuotes), |line|)
    ensures i < |line| && line[i] != '\r' ==> i < r.next
    ensures i < |line| && line[i] == '\r' ==> r == Scan([], None, i)
  {
    var j := SkipSpaces(line, i);
    if j < |line| && line[j] == '"' then QuotedAt(line, j + 1)
    else
      var k := WordEnd(line, j);
      Scan(Widen(line[j..k]), None, k)
  }

  /**
    The loop of `parseInline` from cursor `i`: tokens in order, empty ones
    dropped; on a failed token the tokens before it are kept with the error.
   */
  function InlineFrom(line: Bytes, i: nat): (d: Decoded)
    requires i <= |line| && NoCR(line)
    ensures forall k :: 0 <= k < |d.args| ==> d.args[k] != []
    ensures d.err.Some? ==> d.err == Some(UnbalancedQuotes)
    decreases |line| - i
  {
    if i == |line| then Decoded([], None)
    else
      var a := ArgAt(line, i);
      if a.err.Some? then Decoded([], a.err)
      else Prepend(if a.arg == [] then [] else [a.arg], InlineFrom(line, a.next))
  }

  /** `parseInline` on a fresh line: leading spaces, then the token loop. */
  function InlineArgs(line: Bytes): (d: Decoded)
    requires NoCR(line)
    ensures forall k :: 0 <= k < |d.args| ==> d.args[k] != []
    ensures d.err.Some? ==> d.err == Some(UnbalancedQuotes)
  {
    InlineFrom(line, SkipSpaces(line, 0))
  }

  // ---------------------------------------------------------------------
  // RESP arrays

  /**
    The `for len(text) < length` loop of the `$` case: whole lines are
    appended until at least `length` bytes are gathered.
   */
  function BulkAt(s: Bytes, p: nat, length: int, text: Bytes): (r: LineRead)
    requires p <= |s|
    ensures p <= r.next <= |s|
    ensures r.text.Some? ==> |r.text.value| >= length && text <= r.text.value
    ensures r.text.None? ==> r.next == |s|
    decreases |s| - p
  {
    if |text| >= length then LineRead(Some(text), p)
    else
      var l := ReadLineAt(s, p);
      if l.text.None? then LineRead(None, l.next)
      else BulkAt(s, l.next, length, text + l.text.value)
  }

  /** `parseRespArray` after its '*': the count line, then that many elements. */
  function RespArrayAt(s: Bytes, p: nat): (r: Parsed)
    requires p <= |s|
    ensures p <= r.next <= |s|
    ensures r.out.err == Some(EndOfStream) ==> r.next == |s|
    ensures r.out.err.Some? ==> r.out.err == Some(EndOfStream) || r.out.err == Some(SliceBounds)
    decreases |s| - p, 2
  {
    var h := ReadLineAt(s, p);
    if h.text.None? then Parsed(Decoded([], Some(EndOfStream)), h.next)
    else ElementsAt(s, h.next, Atoi(h.text.value))
  }

  /** The element loop of `parseRespArray` with `count` elements still to read. */
  function ElementsAt(s: Bytes, p: nat, count: int): (r: Parsed)
    requires p <= |s|
    ensures p <= r.next <= |s|
    ensures r.out.err == Some(EndOfStream) ==> r.next == |s|
    ensures r.out.err.Some? ==> r.out.err == Some(EndOfStream) || r.out.err == Some(SliceBounds)
    decreases |s| - p, 1
  {
    if count <= 0 then Parsed(Decoded([], None), p)
    else if p == |s| then Parsed(Decoded([], Some(EndOfStream)), p)
    else
      var e := ElementAt(s, p);
      if e.out.err.Some? then e
      else
        var rest := ElementsAt(s, e.next, count - 1);
        Parsed(Prepend(e.out.args, rest.out), rest.next)
  }

  /** One element, chosen by its lead byte; an unknown lead byte adds nothing. */
  function ElementAt(s: Bytes, p: nat): (r: Parsed)
    requires p < |s|
    ensures p < r.next <= |s|
    ensures r.out.err == Some(EndOfStream) ==> r.next == |s|
    ensures r.out.err.Some? ==> r.out.err == Some(EndOfStream) || r.out.err == Some(SliceBounds)
    ensures r.out.err.Some? ==> r.out.args == []
    decreases |s| - p, 0
  {
    if s[p] == ':' then
      var l := ReadLineAt(s, p + 1);
      if l.text.None? then Parsed(Decoded([], Some(EndOfStream)), l.next)
      else Parsed(Decoded([l.text.value], None), l.next)
    else if s[p] == '$' then
      var h := ReadLineAt(s, p + 1);
      if h.text.None? then Parsed(Decoded([], Some(EndOfStream)), h.next)
      else
        var length := Atoi(h.text.value);
        var b := BulkAt(s, h.next, length, []);
        if b.text.None? then Parsed(Decoded([], Some(EndOfStream)), b.next)
        else if length < 0 then Parsed(Decoded([], Some(SliceBounds)), b.next)
        else Parsed(Decoded([b.text.value[..length]], None), b.next)
    else if s[p] == '*' then
      var n := RespArrayAt(s, p + 1);
      if n.out.err.Some? then Parsed(Decoded([], n.out.err), n.next) else n
    else Parsed(Decoded([], None), p + 1)
  }

  // ---------------------------------------------------------------------
  // GetCommand

  /** The line `GetCommand` hands to `parseInline`: the lead byte and the rest of its line. */
  function InlineLine(s: Bytes, p: nat): (r: Option<Bytes>)
    requires p <= |s|
    ensures r.Some? ==>
      && p < |s| && s[p] != '*'
      && |r.value| >= 1 && r.value[0] == s[p] && NoCR(r.value[1..])
      && p + |r.value| + 2 <= |s|
  {
    if p < |s| && s[p] != '*' && ReadLineAt(s, p + 1).text.Some? then
      Some([s[p]] + ReadLineAt(s, p + 1).text.value)
    else None
  }

  /** `GetCommand`: the next request decoded from position `p` of the stream. */
  function Next(s: Bytes, p: nat): (r: Parsed)
    requires p <= |s|
    ensures p <= r.next <= |s|
    ensures r.out.err == Some(EndOfStream) ==> r.next == |s|
    ensures r.out.err == Some(NoProgress) <==> p < |s| && s[p] == '\r' && InlineLine(s, p).Some?
  {
    if p == |s| then Parsed(Decoded([], Some(EndOfStream)), p)
    else if s[p] == '*' then RespArrayAt(s, p + 1)
    else match InlineLine(s, p)
      case None => Parsed(Decoded([], Some(EndOfStream)), |s|)
      case Some(line) =>
        if line[0] == '\r' then Parsed(Decoded([], Some(NoProgress)), p + |line| + 2)
        else
          assert NoCR(line) by { assert line == [line[0]] + line[1..]; }
          Parsed(InlineArgs(line), p + |line| + 2)
  }
}
