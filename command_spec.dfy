/**
  What one request does to the key-value store of `command/command.go`:
  the reply it writes, whether the connection stays open, and the new
  contents of the store and of the queue of pending expiry timers.
 */
module CommandSpec {
  import opened Text

  /**
    A deletion scheduled by `SET ... EX|PX`: the goroutine that sleeps for
    `delayMs` milliseconds and then deletes `key`.
   */
  datatype Expiry = Expiry(key: Bytes, delayMs: int)

  /**
    What the connection sees: the reply text and `Handle`'s result (false
    closes the connection), or a runtime panic that takes the server down.
   */
  datatype Outcome = Replied(reply: Bytes, keepOpen: bool) | Crashed

  /** The store after a step, with the step's outcome. */
  datatype Effect = Effect(cache: map<Bytes, Bytes>, pending: seq<Expiry>, outcome: Outcome)

  /** The command a request names, after `strings.ToUpper`. */
  datatype Name = GetCmd | SetCmd | DelCmd | QuitCmd | Other

  const OK: Bytes := "+OK\r\n"
  const NULL: Bytes := "$-1\r\n"
  const BAD_EXPIRY: Bytes := "-ERR expiration option is not valid\r\n"

  /** The arity error: a RESP error line naming the command. */
  function WrongArity(name: Bytes): (r: Bytes)
    ensures |r| > |name| + 2 && r[0] == '-' && r[|r| - 2..] == "\r\n"
    ensures |r| == |name| + 47 && r[36..36 + |name|] == name
  {
    "-ERR wrong number of arguments for '" + name + "' command\r\n"
  }

  /** The error for an unknown command: a RESP error line naming it. */
  function UnknownCommand(name: Bytes): (r: Bytes)
    ensures |r| > |name| + 2 && r[0] == '-' && r[|r| - 2..] == "\r\n"
    ensures |r| == |name| + 25 && r[22..22 + |name|] == name
  {
    "-ERR unknown command '" + name + "'\r\n"
  }

  /**
    `$<len>\r\n<out>\r\n`: the two writes of a successful GET. The header
    holds the length in decimal, and `out` follows it unchanged.
   */
  function BulkReply(out: Bytes): (r: Bytes)
    ensures |r| == |Decimal(|out|)| + |out| + 5
    ensures r[0] == '$' && IsDigit(r[1])
    ensures Atoi(r[1..|r| - |out| - 4]) == |out| && r[|r| - |out| - 4..|r| - |out| - 2] == "\r\n"
    ensures r[|r| - |out| - 2..|r| - 2] == out && r[|r| - 2..] == "\r\n"
  {
    var d := Decimal(|out|);
    var r := "$" + d + "\r\n" + out + "\r\n";
    assert r[1..|r| - |out| - 4] == d;
    AtoiDecimal(|out|);
    r
  }

  /** `:<n>\r\n`: the reply of DEL, whose digits read back as `n`. */
  function CountReply(n: nat): (r: Bytes)
    ensures |r| >= 4 && r[0] == ':' && r[|r| - 2..] == "\r\n"
    ensures AllDigits(r[1..|r| - 2]) && Atoi(r[1..|r| - 2]) == n
  {
    var r := ":" + Decimal(n) + "\r\n";
    assert r[1..|r| - 2] == Decimal(n);
    AtoiDecimal(n);
    r
  }

  /** No text matches two of the command names. */
  lemma NamesDistinct(s: Bytes)
    ensures UpperIs(s, "GET") ==> !UpperIs(s, "SET") && !UpperIs(s, "DEL") && !UpperIs(s, "QUIT")
    ensures UpperIs(s, "SET") ==> !UpperIs(s, "DEL") && !UpperIs(s, "QUIT")
    ensures UpperIs(s, "DEL") ==> !UpperIs(s, "QUIT")
  {
    if UpperIs(s, "GET") && UpperIs(s, "SET") { UpperIsUnique(s, "GET", "SET"); }
    if UpperIs(s, "GET") && UpperIs(s, "DEL") { UpperIsUnique(s, "GET", "DEL"); }
    if UpperIs(s, "GET") && UpperIs(s, "QUIT") { UpperIsUnique(s, "GET", "QUIT"); }
    if UpperIs(s, "SET") && UpperIs(s, "DEL") { UpperIsUnique(s, "SET", "DEL"); }
    if UpperIs(s, "SET") && UpperIs(s, "QUIT") { UpperIsUnique(s, "SET", "QUIT"); }
    if UpperIs(s, "DEL") && UpperIs(s, "QUIT") { UpperIsUnique(s, "DEL", "QUIT"); }
  }

  /** The NX and XX conditions of SET never both match one argument. */
  lemma NotBothConditions(s: Bytes)
    ensures !(UpperIs(s, "NX") && UpperIs(s, "XX"))
  {
    if UpperIs(s, "NX") && UpperIs(s, "XX") {
      UpperIsUnique(s, "NX", "XX");
    }
  }

  /** EX and PX never both match one argument. */
  lemma NotBothUnits(s: Bytes)
    ensures !(UpperIs(s, "EX") && UpperIs(s, "PX"))
  {
    if UpperIs(s, "EX") && UpperIs(s, "PX") {
      UpperIsUnique(s, "EX", "PX");
    }
  }

  /**
    The switch of `Handle`, case-insensitive on the first argument: each
    command is chosen exactly when `strings.ToUpper` gives its name.
   */
  function NameOf(s: Bytes): (r: Name)
    ensures r == GetCmd <==> UpperIs(s, "GET")
    ensures r == SetCmd <==> UpperIs(s, "SET")
    ensures r == DelCmd <==> UpperIs(s, "DEL")
    ensures r == QuitCmd <==> UpperIs(s, "QUIT")
  {
    NamesDistinct(s);
    if UpperIs(s, "GET") then GetCmd
    else if UpperIs(s, "SET") then SetCmd
    else if UpperIs(s, "DEL") then DelCmd
    else if UpperIs(s, "QUIT") then QuitCmd
    else Other
  }

  /**
    What GET shows for a stored value: the value itself, or, when it starts
    with '"', the result of `strconv.Unquote` on it (empty on failure).
   */
  function Shown(v: Bytes, unquote: Bytes -> Option<Bytes>): (r: Bytes)
    ensures (v == [] || v[0] != '"') ==> r == v
    ensures |v| > 0 && v[0] == '"' ==> r == (if unquote(v).Some? then unquote(v).value else [])
  {
    if |v| > 0 && v[0] == '"' then
      match unquote(v)
      case Some(u) => u
      case None => []
    else v
  }

  /**
    GET never changes the connection; it answers nil exactly for a missing
    key and an error exactly for the wrong number of arguments.
   */
  function GetOutcome(cache: map<Bytes, Bytes>, args: seq<Bytes>, unquote: Bytes -> Option<Bytes>): (o: Outcome)
    requires |args| >= 1
    ensures o.Replied? && o.keepOpen
    ensures o.reply == NULL <==> |args| == 2 && args[1] !in cache
    ensures |o.reply| > 0 && (o.reply[0] == '-' <==> |args| != 2)
  {
    if |args| != 2 then Replied(WrongArity(args[0]), true)
    else if args[1] in cache then Replied(BulkReply(Shown(cache[args[1]], unquote)), true)
    else Replied(NULL, true)
  }

  /**
    `setExpiration(index)`: the timer for the option at `index` and the
    amount after it (a non-number counts as 0), or None for an option that
    is neither EX nor PX. The timer is always for the key being set.
   */
  function ExpiryOf(args: seq<Bytes>, index: nat): (r: Option<Expiry>)
    requires 2 <= index && index + 1 < |args|
    ensures r.Some? <==> UpperIs(args[index], "EX") || UpperIs(args[index], "PX")
    ensures r.Some? ==> r.value.key == args[1]
    ensures UpperIs(args[index], "EX") ==> r == Some(Expiry(args[1], Atoi(args[index + 1]) * 1000))
    ensures UpperIs(args[index], "PX") ==> r == Some(Expiry(args[1], Atoi(args[index + 1])))
  {
    NotBothUnits(args[index]);
    var value := Atoi(args[index + 1]);
    if UpperIs(args[index], "EX") then Some(Expiry(args[1], value * 1000))
    else if UpperIs(args[index], "PX") then Some(Expiry(args[1], value))
    else None
  }

  /**
    The position of the expiry option: one past NX or XX (exactly one of
    which matched), the fourth argument otherwise.
   */
  function OptionIndex(args: seq<Bytes>): (r: nat)
    requires |args| >= 4
    ensures r == 3 || r == 4
    ensures r == 4 <==> UpperIs(args[3], "NX") != UpperIs(args[3], "XX")
  {
    NotBothConditions(args[3]);
    if UpperIs(args[3], "NX") || UpperIs(args[3], "XX") then 4 else 3
  }

  /**
    `Set`: only a `+OK` reply changes anything; it stores `args[2]` under
    `args[1]` and adds at most one timer, for that key.
   */
  function SetEffect(cache: map<Bytes, Bytes>, pending: seq<Expiry>, args: seq<Bytes>): (r: Effect)
    requires |args| >= 1
    ensures r.outcome.Replied? ==> r.outcome.keepOpen
    ensures r.outcome != Replied(OK, true) ==> r.cache == cache && r.pending == pending
    ensures r.outcome == Replied(OK, true) ==>
      && 3 <= |args| <= 6
      && r.cache == cache[args[1] := args[2]]
      && pending <= r.pending && |r.pending| <= |pending| + 1
      && (|r.pending| > |pending| ==> r.pending[|pending|].key == args[1])
  {
    var n := |args|;
    if n < 3 || n > 6 then Effect(cache, pending, Replied(WrongArity(args[0]), true))
    else if n == 3 then Effect(cache[args[1] := args[2]], pending, Replied(OK, true))
    else if UpperIs(args[3], "NX") && args[1] in cache then Effect(cache, pending, Replied(NULL, true))
    else if UpperIs(args[3], "XX") && args[1] !in cache then Effect(cache, pending, Replied(NULL, true))
    else
      var index := OptionIndex(args);
      if index == n then Effect(cache[args[1] := args[2]], pending, Replied(OK, true))
      else if index + 1 == n then Effect(cache, pending, Crashed)
      else match ExpiryOf(args, index)
        case None => Effect(cache, pending, Replied(BAD_EXPIRY, true))
        case Some(x) => Effect(cache[args[1] := args[2]], pending + [x], Replied(OK, true))
  }

  /** The distinct keys of a list. */
  function Listed(keys: seq<Bytes>): set<Bytes> {
    set k | k in keys
  }

  /**
    `Del`: the listed keys leave the store, every other entry stays as it
    was, and the timers are untouched.
   */
  function DelEffect(cache: map<Bytes, Bytes>, pending: seq<Expiry>, args: seq<Bytes>): (r: Effect)
    requires |args| >= 1
    ensures r.pending == pending && r.outcome.Replied? && r.outcome.keepOpen
    ensures forall k :: k in r.cache ==> k in cache && r.cache[k] == cache[k]
    ensures |args| >= 2 ==> forall k :: k in cache ==> (k in r.cache <==> k !in args[1..])
    ensures |args| < 2 ==> r.cache == cache
  {
    if |args| < 2 then Effect(cache, pending, Replied(WrongArity(args[0]), true))
    else
      var keys := Listed(args[1..]);
      Effect(cache - keys, pending, Replied(CountReply(|cache.Keys * keys|), true))
  }

  /**
    QUIT closes the connection exactly when it has no argument, replying
    `+OK`; with arguments it replies the arity error and keeps it open.
   */
  function QuitOutcome(args: seq<Bytes>): (o: Outcome)
    requires |args| >= 1
    ensures o.Replied? && (!o.keepOpen <==> |args| == 1)
    ensures o == Replied(OK, false) || o == Replied(WrongArity(args[0]), true)
  {
    if |args| != 1 then Replied(WrongArity(args[0]), true) else Replied(OK, false)
  }

  /**
    `Handle`: one request against the store. An empty invocation panics on
    its missing name. Otherwise only SET and DEL write the store, only SET
    adds timers or panics, and only QUIT closes.
   */
  function Execute(cache: map<Bytes, Bytes>, pending: seq<Expiry>, args: seq<Bytes>,
                   unquote: Bytes -> Option<Bytes>): (r: Effect)
    ensures |args| == 0 ==> r == Effect(cache, pending, Crashed)
    ensures r.cache != cache ==> |args| >= 1 && (NameOf(args[0]) == SetCmd || NameOf(args[0]) == DelCmd)
    ensures r.pending != pending ==> |args| >= 1 && NameOf(args[0]) == SetCmd
    ensures r.outcome.Crashed? ==> |args| == 0 || NameOf(args[0]) == SetCmd
    ensures r.outcome.Replied? && !r.outcome.keepOpen ==> |args| >= 1 && NameOf(args[0]) == QuitCmd
  {
    if |args| == 0 then Effect(cache, pending, Crashed)
    else match NameOf(args[0])
    case GetCmd => Effect(cache, pending, GetOutcome(cache, args, unquote))
    case SetCmd => SetEffect(cache, pending, args)
    case DelCmd => DelEffect(cache, pending, args)
    case QuitCmd => Effect(cache, pending, QuitOutcome(args))
    case Other => Effect(cache, pending, Replied(UnknownCommand(args[0]), true))
  }

  /**
    The timer `i` wakes up and deletes its key, whatever the key holds by
    then; the result is the new store and the timers still pending.
   */
  function FireAt(cache: map<Bytes, Bytes>, pending: seq<Expiry>, i: nat): (r: (map<Bytes, Bytes>, seq<Expiry>))
    requires i < |pending|
    ensures pending[i].key !in r.0
    ensures forall k :: k != pending[i].key ==> (k in r.0 <==> k in cache)
    ensures forall k :: k in r.0 ==> r.0[k] == cache[k]
    ensures |r.1| == |pending| - 1
    ensures forall j :: 0 <= j < i ==> r.1[j] == pending[j]
    ensures forall j :: i <= j < |r.1| ==> r.1[j] == pending[j + 1]
    ensures multiset(r.1) + multiset{pending[i]} == multiset(pending)
  {
    assert pending == pending[..i] + [pending[i]] + pending[i + 1..];
    (cache - {pending[i].key}, pending[..i] + pending[i + 1..])
  }
}
