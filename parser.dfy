/**
  The request decoder of `parser/parser.go` as the cursor machine it is:
  a `Parser` object whose buffered reader, `line` and `index` change step
  by step. Every method is proved to compute what the functions of
  `ParserSpec` describe.
 */
module Parser {
  import opened Text
  import opened ParserSpec

  function PrependParsed(args: seq<Bytes>, r: Parsed): Parsed {
    Parsed(Prepend(args, r.out), r.next)
  }

  lemma ExtendTwice(a: Bytes, b: Bytes, r: Scan)
    ensures Extend(a, Extend(b, r)) == Extend(a + b, r)
  {
    if r.err.None? {
      assert a + (b + r.arg) == (a + b) + r.arg;
    }
  }

  /** One step of the unquoted-token loop: the byte at `k` is widened onto the token. */
  lemma WordStep(line: Bytes, j: nat, k: nat, s: Bytes, goal: nat)
    requires j <= k < |line| && line[k] != ' ' && line[k] != '\r'
    requires s == Widen(line[j..k]) && goal == WordEnd(line, k)
    ensures s + RuneOf(line[k]) == Widen(line[j..k + 1]) && goal == WordEnd(line, k + 1)
  {
    assert line[j..k + 1][..k - j] == line[j..k];
  }

  /** One step of the `parseInline` loop: the token `arg` read at `i` joins the list unless empty. */
  lemma InlineStep(line: Bytes, i: nat, args: seq<Bytes>, goal: Decoded, arg: Bytes, err: Option<Error>, next: nat)
    requires i < |line| && NoCR(line)
    requires goal == Prepend(args, InlineFrom(line, i))
    requires Scan(arg, err, next) == ArgAt(line, i)
    ensures err.Some? ==> goal == Decoded(args, err)
    ensures err.None? ==> goal == Prepend(args + (if arg == [] then [] else [arg]), InlineFrom(line, next))
  {
    InlineUnfold(line, i, Scan(arg, err, next));
    if err.None? {
      var a: seq<Bytes> := if arg == [] then [] else [arg];
      var rest := InlineFrom(line, next);
      assert args + (a + rest.args) == (args + a) + rest.args;
    }
  }

  lemma InlineUnfold(line: Bytes, i: nat, a: Scan)
    requires i < |line| && NoCR(line) && a == ArgAt(line, i)
    ensures a.err.Some? ==> InlineFrom(line, i) == Decoded([], a.err)
    ensures a.err.None? ==>
      a.next <= |line| && InlineFrom(line, i) == Prepend(if a.arg == [] then [] else [a.arg], InlineFrom(line, a.next))
  {
  }

  /** One step of the element loop of `parseRespArray`. */
  lemma ElementsStep(s: Bytes, p: nat, count: int, args: seq<Bytes>, goal: Parsed, e: Decoded, next: nat)
    requires p < |s| && count > 0
    requires goal == PrependParsed(args, ElementsAt(s, p, count))
    requires Parsed(e, next) == ElementAt(s, p)
    ensures e.err.Some? ==> goal == Parsed(Decoded(args, e.err), next)
    ensures e.err.None? ==> next <= |s| && goal == PrependParsed(args + e.args, ElementsAt(s, next, count - 1))
  {
    if e.err.None? {
      var rest := ElementsAt(s, next, count - 1);
      assert ElementsAt(s, p, count) == Parsed(Prepend(e.args, rest.out), rest.next);
      assert args + (e.args + rest.out.args) == (args + e.args) + rest.out.args;
    } else {
      assert args + [] == args;
    }
  }

  /** The element loop of `parseRespArray` meets the end of the input. */
  lemma ElementsAtEnd(s: Bytes, count: int, args: seq<Bytes>, goal: Parsed)
    requires count > 0
    requires goal == PrependParsed(args, ElementsAt(s, |s|, count))
    ensures goal == Parsed(Decoded(args, Some(EndOfStream)), |s|)
  {
    assert args + [] == args;
  }

  lemma QuotedStep(line: Bytes, i: nat, stream: Bytes, goal: Scan, c: Byte, j: nat)
    requires i < |line| && line[i] != '"'
    requires goal == Extend(stream, QuotedAt(line, i))
    requires line[i] == '\\' && i + 1 < |line| && line[i + 1] == '"' ==> c == '"' && j == i + 2
    requires !(line[i] == '\\' && i + 1 < |line| && line[i + 1] == '"') ==> c == line[i] && j == i + 1
    ensures j <= |line| && goal == Extend(stream + [c], QuotedAt(line, j))
  {
    ExtendTwice(stream, [c], QuotedAt(line, j));
  }

  /**
    One connection's decoder. `input` stands for every byte the connection
    will deliver and `pos` for how many of them the buffered reader has
    consumed; `line` and `index` are the source's fields of the same names.
   */
  class Parser {
    const input: Bytes
    var pos: nat
    var line: Bytes
    var index: nat

    ghost predicate Valid()
      reads this
    {
      pos <= |input| && index <= |line|
    }

    /** `NewParser`: nothing read yet, an empty line. */
    constructor (input: Bytes)
      ensures Valid()
      ensures this.input == input && pos == 0 && line == [] && index == 0
    {
      this.input := input;
      pos := 0;
      line := [];
      index := 0;
    }

    /**
      `atEnd`: the cursor is at or past the end of the line; since the
      cursor never passes the end, that is exactly at its length.
     */
    predicate AtEnd(): (b: bool)
      reads this
      ensures Valid() ==> (b <==> index == |line|)
    {
      index >= |line|
    }

    /**
      `current`: the byte under the cursor, or '\r' as a sentinel at the end
      of the line; so '\r' comes back exactly at the end or on a literal '\r'.
     */
    function Current(): (c: Byte)
      reads this
      ensures c == '\r' <==> AtEnd() || line[index] == '\r'
      ensures !AtEnd() ==> c == line[index]
    {
      if AtEnd() then '\r' else line[index]
    }

    /** `reader.ReadByte`: the next byte, or end of stream with nothing consumed. */
    method ReadByte() returns (b: Option<Byte>)
      requires Valid()
      modifies this`pos
      ensures Valid()
      ensures old(pos) < |input| ==> b == Some(input[old(pos)]) && pos == old(pos) + 1
      ensures old(pos) == |input| ==> b == None && pos == old(pos)
    {
      if pos < |input| {
        b := Some(input[pos]);
        pos := pos + 1;
      } else {
        b := None;
      }
    }

    /**
      `readLine`: `reader.ReadBytes('\r')` followed by one `ReadByte` whose
      value is ignored; the line comes back without its '\r'.
     */
    method ReadLine() returns (r: Option<Bytes>)
      requires Valid()
      modifies this`pos
      ensures Valid()
      ensures LineRead(r, pos) == ReadLineAt(input, old(pos))
    {
      var data: Bytes := [];
      while true
        invariant Valid() && old(pos) <= pos
        invariant data == input[old(pos)..pos]
        invariant forall j :: old(pos) <= j < pos ==> input[j] != '\r'
        decreases |input| - pos
      {
        var b := ReadByte();
        if b.None? {
          assert CrFrom(input, old(pos)) == |input|;
          return None;
        }
        data := data + [b.value];
        if b.value == '\r' {
          break;
        }
      }
      assert CrFrom(input, old(pos)) == pos - 1;
      var next := ReadByte();
      if next.None? {
        return None;
      }
      r := Some(data[..|data| - 1]);
    }

    /** The loop `for current() == ' ' { index++ }` that opens `parserArg` and `parseInline`. */
    method SkipBlanks()
      requires Valid()
      modifies this`index
      ensures Valid() && index == SkipSpaces(line, old(index))
    {
      while Current() == ' '
        invariant Valid() && SkipSpaces(line, old(index)) == SkipSpaces(line, index)
        decreases |line| - index
      {
        index := index + 1;
      }
    }

    /** The unquoted-token loop of `parserArg`: bytes up to a ' ', a '\r' or the end, each widened. */
    method ReadWord() returns (s: Bytes)
      requires Valid()
      modifies this`index
      ensures Valid() && index == WordEnd(line, old(index))
      ensures s == Widen(line[old(index)..index])
    {
      ghost var ln, start := line, index;
      s := [];
      ghost var goal := WordEnd(ln, start);
      while !AtEnd() && Current() != ' ' && Current() != '\r'
        invariant Valid() && line == ln && start <= index
        invariant goal == WordEnd(ln, index)
        invariant s == Widen(ln[start..index])
        decreases |ln| - index
      {
        WordStep(ln, start, index, s, goal);
        s := s + RuneOf(Current());
        index := index + 1;
      }
    }

    /** `parseString`, entered just after the opening '"'. */
    method ParseString() returns (stream: Bytes, err: Option<Error>)
      requires Valid()
      modifies this`index
      ensures Valid()
      ensures Scan(stream, err, index) == QuotedAt(line, old(index))
    {
      ghost var ln := line;
      ghost var goal := QuotedAt(ln, index);
      stream := [];
      while Current() != '"' && !AtEnd()
        invariant Valid() && line == ln
        invariant goal == Extend(stream, QuotedAt(ln, index))
        decreases |ln| - index
      {
        ghost var i := index;
        var cur := Current();
        index := index + 1;
        var next := Current();
        if cur == '\\' && next == '"' {
          QuotedStep(ln, i, stream, goal, '"', i + 2);
          stream := stream + ['"'];
          index := index + 1;
        } else {
          QuotedStep(ln, i, stream, goal, cur, i + 1);
          stream := stream + [cur];
        }
      }
      if Current() != '"' {
        return [], Some(UnbalancedQuotes);
      }
      index := index + 1;
      err := None;
    }

    /** `parserArg`: skip spaces, then one quoted or unquoted token. */
    method ParseArg() returns (s: Bytes, err: Option<Error>)
      requires Valid()
      modifies this`index
      ensures Valid()
      ensures Scan(s, err, index) == ArgAt(line, old(index))
    {
      ghost var r := ArgAt(line, index);
      SkipBlanks();
      if Current() == '"' {
        index := index + 1;
        s, err := ParseString();
        return;
      }
      s := ReadWord();
      err := None;
    }

    /** `parseInline`: the tokens of the current line, from the cursor on. */
    method ParseInline() returns (d: Decoded)
      requires Valid() && NoCR(line)
      modifies this`index
      ensures Valid() && index == |line|
      ensures d == InlineFrom(line, SkipSpaces(line, old(index)))
    {
      SkipBlanks();
      ghost var ln := line;
      ghost var goal := InlineFrom(ln, index);
      var args: seq<Bytes> := [];
      assert goal == Prepend(args, goal);
      while !AtEnd()
        invariant Valid() && line == ln
        invariant goal == Prepend(args, InlineFrom(ln, index))
        decreases |ln| - index
      {
        ghost var i := index;
        var arg, err := ParseArg();
        InlineStep(ln, i, args, goal, arg, err, index);
        if err.Some? {
          return Decoded(args, err);
        }
        if arg != [] {
          args := args + [arg];
        } else {
          assert args + [] == args;
        }
      }
      assert args + [] == args;
      d := Decoded(args, None);
    }

    /** The `for len(text) < length` loop of the `$` case. */
    method ReadBulk(length: int) returns (text: Option<Bytes>)
      requires Valid()
      modifies this`pos
      ensures Valid()
      ensures LineRead(text, pos) == BulkAt(input, old(pos), length, [])
    {
      var t: Bytes := [];
      while |t| < length
        invariant Valid()
        invariant BulkAt(input, old(pos), length, []) == BulkAt(input, pos, length, t)
        decreases |input| - pos
      {
        var l := ReadLine();
        if l.None? {
          return None;
        }
        t := t + l.value;
      }
      text := Some(t);
    }

    /**
      `parseRespArray`, entered just after a '*': the count line, then that
      many elements, nested arrays flattened into the same argument list.
     */
    method ParseRespArray() returns (d: Decoded)
      requires Valid()
      modifies this`pos
      ensures Valid()
      ensures Parsed(d, pos) == RespArrayAt(input, old(pos))
      decreases |input| - pos, 1
    {
      var header := ReadLine();
      if header.None? {
        return Decoded([], Some(EndOfStream));
      }
      var count := Atoi(header.value);
      var args: seq<Bytes> := [];
      var i := 0;
      ghost var goal := RespArrayAt(input, old(pos));
      ghost var left := count;
      assert goal == ElementsAt(input, pos, left);
      assert goal == PrependParsed([], goal);
      while i < count
        invariant Valid() && old(pos) < pos
        invariant left == count - i
        invariant goal == PrependParsed(args, ElementsAt(input, pos, left))
        decreases count - i
      {
        ghost var at := pos;
        var symbol := ReadByte();
        if symbol.None? {
          ElementsAtEnd(input, left, args, goal);
          return Decoded(args, Some(EndOfStream));
        }
        var e := ParseElement(symbol.value);
        ElementsStep(input, at, left, args, goal, e, pos);
        if e.err.Some? {
          return Decoded(args, e.err);
        }
        args := args + e.args;
        i := i + 1;
        left := left - 1;
      }
      assert args + [] == args;
      d := Decoded(args, None);
    }

    /**
      The `switch symbol` of `parseRespArray`, entered just after the lead
      byte `symbol` of one element.
     */
    method ParseElement(symbol: Byte) returns (d: Decoded)
      requires Valid() && 0 < pos && input[pos - 1] == symbol
      modifies this`pos
      ensures Valid()
      ensures Parsed(d, pos) == ElementAt(input, old(pos) - 1)
      decreases |input| - pos, 2
    {
      if symbol == ':' {
        var arg := ReadLine();
        if arg.None? {
          return Decoded([], Some(EndOfStream));
        }
        d := Decoded([arg.value], None);
      } else if symbol == '$' {
        var arg := ReadLine();
        if arg.None? {
          return Decoded([], Some(EndOfStream));
        }
        var length := Atoi(arg.value);
        var text := ReadBulk(length);
        if text.None? {
          return Decoded([], Some(EndOfStream));
        }
        if length < 0 {
          // text[:length] panics in the source
          return Decoded([], Some(SliceBounds));
        }
        d := Decoded([text.value[..length]], None);
      } else if symbol == '*' {
        var next := ParseRespArray();
        if next.err.Some? {
          return Decoded([], next.err);
        }
        d := next;
      } else {
        d := Decoded([], None);
      }
    }

    /**
      `GetCommand`: one request from the stream, in RESP array form if it
      starts with '*' and as an inline line otherwise.
     */
    method GetCommand() returns (d: Decoded)
      requires Valid()
      modifies this
      ensures Valid()
      ensures Parsed(d, pos) == Next(input, old(pos))
      ensures InlineLine(input, old(pos)).Some? ==>
        && line == InlineLine(input, old(pos)).value
        && index == (if line[0] == '\r' then 0 else |line|)
      ensures InlineLine(input, old(pos)).None? ==> line == old(line) && index == old(index)
    {
      var b := ReadByte();
      if b.None? {
        return Decoded([], Some(EndOfStream));
      }
      if b.value == '*' {
        d := ParseRespArray();
        return;
      }
      var newLine := ReadLine();
      if newLine.None? {
        return Decoded([], Some(EndOfStream));
      }
      index := 0;
      line := [b.value] + newLine.value;
      if b.value == '\r' {
        // parseInline would call parserArg forever without moving the cursor
        return Decoded([], Some(NoProgress));
      }
      assert NoCR(line);
      d := ParseInline();
    }
  }
}
