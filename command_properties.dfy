/**
  Properties of the command semantics of `command/command.go`: which
  requests change the store, what SET, GET and DEL promise each other, when
  the server panics, how expiry timers behave, and that the replies are
  RESP values the request decoder itself reads back.
 */
module CommandProperties {
  import opened Text
  import opened ParserSpec
  import opened ParserProperties
  import opened CommandSpec

  /** A reply that reports that nothing was done: an error, a nil, or a panic. */
  predicate IsFailure(o: Outcome) {
    o.Crashed? || (|o.reply| > 0 && o.reply[0] == '-') || o.reply == NULL
  }

  /** Errors, nil replies and panics leave the store and the timers as they were. */
  lemma FailuresChangeNothing(cache: map<Bytes, Bytes>, pending: seq<Expiry>, args: seq<Bytes>,
                              unquote: Bytes -> Option<Bytes>)
    ensures var e := Execute(cache, pending, args, unquote);
      IsFailure(e.outcome) ==> e.cache == cache && e.pending == pending
  {
    var e := Execute(cache, pending, args, unquote);
    if |args| == 0 {
      return;
    }
    match NameOf(args[0])
    case SetCmd =>
      SetStores(cache, pending, args);
      assert !IsFailure(Replied(OK, true));
    case DelCmd =>
      if |args| >= 2 {
        assert e.outcome.reply[0] == ':';
      }
    case _ =>

  }

  /**
    Only SET and DEL write the store, and only a successful SET with an
    expiry option starts a timer: one, for the key it stored.
   */
  lemma OnlySetAndDelWrite(cache: map<Bytes, Bytes>, pending: seq<Expiry>, args: seq<Bytes>,
                           unquote: Bytes -> Option<Bytes>)
    ensures var e := Execute(cache, pending, args, unquote);
      e.cache != cache ==> |args| >= 1 && (NameOf(args[0]) == SetCmd || NameOf(args[0]) == DelCmd)
    ensures var e := Execute(cache, pending, args, unquote);
      e.pending != pending ==>
        |args| >= 1 && NameOf(args[0]) == SetCmd && e.outcome == Replied(OK, true) && |args| >= 5 &&
        e.pending == pending + [Expiry(args[1], e.pending[|pending|].delayMs)]
  {
  }

  /**
    A SET that replies +OK stores exactly its value under its key, and may
    add one timer for that key; a SET that does not reply +OK stores nothing.
   */
  lemma SetStores(cache: map<Bytes, Bytes>, pending: seq<Expiry>, args: seq<Bytes>)
    requires |args| >= 1
    ensures var e := SetEffect(cache, pending, args);
      e.outcome == Replied(OK, true) ==>
        e.cache == cache[args[1] := args[2]] &&
        (e.pending == pending || (|e.pending| == |pending| + 1 && e.pending[..|pending|] == pending &&
                                  e.pending[|pending|].key == args[1]))
    ensures var e := SetEffect(cache, pending, args);
      e.outcome != Replied(OK, true) ==> e.cache == cache && e.pending == pending
  {
    var e := SetEffect(cache, pending, args);
    if e.pending != pending {
      assert e.pending[..|pending|] == pending;
    }
  }

  /** NX refuses (with a nil reply) exactly when the key exists, XX exactly when it does not. */
  lemma SetConditions(cache: map<Bytes, Bytes>, pending: seq<Expiry>, args: seq<Bytes>)
    requires 4 <= |args| <= 6
    ensures UpperIs(args[3], "NX") ==>
      (SetEffect(cache, pending, args).outcome == Replied(NULL, true) <==> args[1] in cache)
    ensures UpperIs(args[3], "XX") ==>
      (SetEffect(cache, pending, args).outcome == Replied(NULL, true) <==> args[1] !in cache)
  {
    if UpperIs(args[3], "NX") && UpperIs(args[3], "XX") {
      UpperIsUnique(args[3], "NX", "XX");
    }
  }

  /**
    GET after a plain SET of the same key shows the value just stored (or
    what `strconv.Unquote` makes of it, when it starts with '"').
   */
  lemma SetThenGet(cache: map<Bytes, Bytes>, pending: seq<Expiry>, key: Bytes, value: Bytes,
                   unquote: Bytes -> Option<Bytes>)
    ensures var e := Execute(cache, pending, ["SET", key, value], unquote);
      Execute(e.cache, e.pending, ["GET", key], unquote).outcome ==
        Replied(BulkReply(Shown(value, unquote)), true)
    ensures (value == [] || value[0] != '"') ==> Shown(value, unquote) == value
  {
  }

  /** After DEL none of the listed keys is stored, and every other key is untouched. */
  lemma DelRemoves(cache: map<Bytes, Bytes>, pending: seq<Expiry>, args: seq<Bytes>)
    requires |args| >= 2
    ensures var e := DelEffect(cache, pending, args);
      (forall k :: k in args[1..] ==> k !in e.cache) &&
      (forall k :: k in cache && k !in args[1..] ==> k in e.cache && e.cache[k] == cache[k]) &&
      e.cache.Keys <= cache.Keys
  {
  }

  /** A key listed twice is counted once. */
  lemma {:induction false} ListedSize(keys: seq<Bytes>)
    ensures |Listed(keys)| <= |keys|
    ensures (forall i, j :: 0 <= i < j < |keys| ==> keys[i] != keys[j]) ==> |Listed(keys)| == |keys|
  {
    if keys != [] {
      var init := keys[..|keys| - 1];
      var last := keys[|keys| - 1];
      ListedSize(init);
      assert keys == init + [last];
      assert Listed(keys) == Listed(init) + {last};
      if forall i, j :: 0 <= i < j < |keys| ==> keys[i] != keys[j] {
        assert last !in Listed(init);
      }
    }
  }

  /**
    DEL's count: never more than the keys listed nor the keys stored, all of
    them when the listed keys are distinct and stored, and 0 exactly when
    none of them is stored.
   */
  lemma DelCount(cache: map<Bytes, Bytes>, pending: seq<Expiry>, args: seq<Bytes>, n: nat)
    requires |args| >= 2
    requires DelEffect(cache, pending, args).outcome == Replied(CountReply(n), true)
    ensures n <= |args| - 1 && n <= |cache|
    ensures ((forall i, j :: 1 <= i < j < |args| ==> args[i] != args[j]) &&
             (forall k :: k in args[1..] ==> k in cache)) ==> n == |args| - 1
    ensures n == 0 <==> forall k :: k in args[1..] ==> k !in cache
  {
    var keys := Listed(args[1..]);
    CountReplyInjective(n, |cache.Keys * keys|);
    ListedSize(args[1..]);
    SubsetSize(cache.Keys * keys, keys);
    SubsetSize(cache.Keys * keys, cache.Keys);
    if (forall i, j :: 1 <= i < j < |args| ==> args[i] != args[j]) &&
       (forall k :: k in args[1..] ==> k in cache) {
      assert cache.Keys * keys == keys;
    }
    if n == 0 {
      assert cache.Keys * keys == {};
      forall k | k in args[1..] ensures k !in cache {
        assert k in keys && k !in cache.Keys * keys;
      }
    }
    if forall k :: k in args[1..] ==> k !in cache {
      assert cache.Keys * keys == {};
    }
  }

  lemma SubsetSize<T>(a: set<T>, b: set<T>)
    requires a <= b
    ensures |a| <= |b|
  {
    assert b == a + (b - a);
  }

  /** Different counts give different replies. */
  lemma CountReplyInjective(m: nat, n: nat)
    requires CountReply(m) == CountReply(n)
    ensures m == n
  {
    var d, e := Decimal(m), Decimal(n);
    assert CountReply(m) == [':'] + d + CRLF && CountReply(n) == [':'] + e + CRLF;
    assert d == CountReply(m)[1..|CountReply(m)| - 2];
    AtoiDecimal(m);
    AtoiDecimal(n);
  }

  /** `DEL k k` on a stored key deletes it once and replies :1. */
  lemma DelSameKeyTwice(cache: map<Bytes, Bytes>, pending: seq<Expiry>, key: Bytes,
                        unquote: Bytes -> Option<Bytes>)
    requires key in cache
    ensures Execute(cache, pending, ["DEL", key, key], unquote) ==
      Effect(cache - {key}, pending, Replied(CountReply(1), true))
  {
    var args: seq<Bytes> := ["DEL", key, key];
    assert NameOf(args[0]) == DelCmd by {
      assert UpperIs("DEL", "DEL");
    }
    assert Listed(args[1..]) == {key};
    assert |cache.Keys * {key}| == 1 by {
      assert cache.Keys * {key} == {key};
    }
  }

  /** Only a QUIT with no argument asks to close the connection. */
  lemma OnlyQuitCloses(cache: map<Bytes, Bytes>, pending: seq<Expiry>, args: seq<Bytes>,
                       unquote: Bytes -> Option<Bytes>)
    ensures var o := Execute(cache, pending, args, unquote).outcome;
      (o.Replied? && !o.keepOpen) <==> |args| == 1 && NameOf(args[0]) == QuitCmd
  {
  }

  /**
    The arity rules: GET takes one key, SET two to five more arguments, DEL
    at least one key and QUIT none, and each replies the arity error
    otherwise; QUIT alone replies `+OK` and closes; any other name replies
    the unknown-command error. None of these touch the store or the timers.
   */
  lemma ArityErrors(cache: map<Bytes, Bytes>, pending: seq<Expiry>, args: seq<Bytes>,
                    unquote: Bytes -> Option<Bytes>)
    requires |args| >= 1
    ensures var name := NameOf(args[0]);
      (name == GetCmd && |args| != 2) || (name == SetCmd && (|args| < 3 || |args| > 6)) ||
      (name == DelCmd && |args| < 2) || (name == QuitCmd && |args| != 1) ==>
      Execute(cache, pending, args, unquote) == Effect(cache, pending, Replied(WrongArity(args[0]), true))
    ensures NameOf(args[0]) == QuitCmd && |args| == 1 ==>
      Execute(cache, pending, args, unquote) == Effect(cache, pending, Replied(OK, false))
    ensures NameOf(args[0]) == Other ==>
      Execute(cache, pending, args, unquote) == Effect(cache, pending, Replied(UnknownCommand(args[0]), true))
  {
  }

  /**
    The two panics: an empty invocation, whose missing name `Handle` reads,
    and a SET of four to six arguments that passes its NX/XX condition and
    ends exactly at its expiry option, whose amount `setExpiration` then
    reads past the end of the arguments, whatever the option is.
   */
  lemma CrashConditions(cache: map<Bytes, Bytes>, pending: seq<Expiry>, args: seq<Bytes>,
                        unquote: Bytes -> Option<Bytes>)
    ensures Execute(cache, pending, args, unquote).outcome == Crashed <==>
      |args| == 0 ||
      (NameOf(args[0]) == SetCmd && 4 <= |args| <= 6 &&
       !(UpperIs(args[3], "NX") && args[1] in cache) &&
       !(UpperIs(args[3], "XX") && args[1] !in cache) &&
       OptionIndex(args) + 1 == |args|)
  {
  }

  /** The request `*0\r\n` decodes to the empty invocation, and handling it panics. */
  lemma ZeroCountCrashes(cache: map<Bytes, Bytes>, pending: seq<Expiry>, unquote: Bytes -> Option<Bytes>)
    ensures var d := Next("*0\r\n", 0).out;
      d.err.None? && Execute(cache, pending, d.args, unquote) == Effect(cache, pending, Crashed)
  {
    ZeroCountExample();
  }

  /** `SET k v EX`, `SET k v FOO` and, for a new key, `SET k v NX PX` all panic. */
  lemma MissingAmountCrashes(cache: map<Bytes, Bytes>, pending: seq<Expiry>, key: Bytes, value: Bytes,
                             unquote: Bytes -> Option<Bytes>)
    ensures Execute(cache, pending, ["SET", key, value, "EX"], unquote).outcome == Crashed
    ensures Execute(cache, pending, ["SET", key, value, "FOO"], unquote).outcome == Crashed
    ensures key !in cache ==> Execute(cache, pending, ["SET", key, value, "NX", "PX"], unquote).outcome == Crashed
  {
  }

  /** `SET k v EX n` stores and schedules the deletion in n seconds; `PX n` in n milliseconds. */
  lemma ExpiryScheduled(cache: map<Bytes, Bytes>, pending: seq<Expiry>, key: Bytes, value: Bytes, n: nat,
                        unquote: Bytes -> Option<Bytes>)
    ensures Execute(cache, pending, ["SET", key, value, "EX", Decimal(n)], unquote) ==
      Effect(cache[key := value], pending + [Expiry(key, n * 1000)], Replied(OK, true))
    ensures Execute(cache, pending, ["SET", key, value, "PX", Decimal(n)], unquote) ==
      Effect(cache[key := value], pending + [Expiry(key, n)], Replied(OK, true))
  {
    AtoiDecimal(n);
  }

  /**
    An EX or PX amount that is not a number counts as 0: the value is
    stored and a timer with no delay is queued for its key.
   */
  lemma NonNumericAmount(cache: map<Bytes, Bytes>, pending: seq<Expiry>, args: seq<Bytes>,
                         unquote: Bytes -> Option<Bytes>)
    requires 5 <= |args| <= 6 && NameOf(args[0]) == SetCmd
    requires !(UpperIs(args[3], "NX") && args[1] in cache) && !(UpperIs(args[3], "XX") && args[1] !in cache)
    requires OptionIndex(args) + 1 < |args|
    requires UpperIs(args[OptionIndex(args)], "EX") || UpperIs(args[OptionIndex(args)], "PX")
    requires !IsNumber(args[OptionIndex(args) + 1])
    ensures Execute(cache, pending, args, unquote) ==
      Effect(cache[args[1] := args[2]], pending + [Expiry(args[1], 0)], Replied(OK, true))
  {
  }

  /**
    An expiry option that is neither EX nor PX, with an amount after it, is
    refused with the option error before anything is stored.
   */
  lemma BadExpiryOption(cache: map<Bytes, Bytes>, pending: seq<Expiry>, args: seq<Bytes>,
                        unquote: Bytes -> Option<Bytes>)
    requires 5 <= |args| <= 6 && NameOf(args[0]) == SetCmd
    requires !(UpperIs(args[3], "NX") && args[1] in cache) && !(UpperIs(args[3], "XX") && args[1] !in cache)
    requires OptionIndex(args) + 1 < |args|
    requires !UpperIs(args[OptionIndex(args)], "EX") && !UpperIs(args[OptionIndex(args)], "PX")
    ensures Execute(cache, pending, args, unquote) == Effect(cache, pending, Replied(BAD_EXPIRY, true))
  {
  }

  /**
    A timer outlives the value it was started for: after `SET k v EX 10`
    and a plain `SET k w`, the first timer still deletes `w`.
   */
  lemma StaleTimer(cache: map<Bytes, Bytes>, pending: seq<Expiry>, key: Bytes, v: Bytes, w: Bytes,
                   unquote: Bytes -> Option<Bytes>)
    ensures var e1 := Execute(cache, pending, ["SET", key, v, "EX", "10"], unquote);
      var e2 := Execute(e1.cache, e1.pending, ["SET", key, w], unquote);
      |e2.pending| == |pending| + 1 && e2.pending[|pending|] == Expiry(key, 10000) &&
      key in e2.cache && e2.cache[key] == w &&
      key !in FireAt(e2.cache, e2.pending, |pending|).0
  {
    var ten: Bytes := "10";
    assert ten == Decimal(10);
    AtoiDecimal(10);
  }

  /**
    For ASCII text the command names are matched case-insensitively: each
    command is chosen exactly when the text has its length and each byte
    upper-cases to the letter of the name at the same place.
   */
  lemma NamesIgnoreCase(s: Bytes)
    requires IsAscii(s)
    ensures NameOf(s) == GetCmd <==>
      |s| == 3 && AsciiUpper(s[0]) == 'G' && AsciiUpper(s[1]) == 'E' && AsciiUpper(s[2]) == 'T'
    ensures NameOf(s) == SetCmd <==>
      |s| == 3 && AsciiUpper(s[0]) == 'S' && AsciiUpper(s[1]) == 'E' && AsciiUpper(s[2]) == 'T'
    ensures NameOf(s) == DelCmd <==>
      |s| == 3 && AsciiUpper(s[0]) == 'D' && AsciiUpper(s[1]) == 'E' && AsciiUpper(s[2]) == 'L'
    ensures NameOf(s) == QuitCmd <==>
      |s| == 4 && AsciiUpper(s[0]) == 'Q' && AsciiUpper(s[1]) == 'U' && AsciiUpper(s[2]) == 'I'
      && AsciiUpper(s[3]) == 'T'
  {
    UpperIsAscii(s, "GET");
    UpperIsAscii(s, "SET");
    UpperIsAscii(s, "DEL");
    UpperIsAscii(s, "QUIT");
  }

  /** Upper-casing is Unicode-aware: "ſet" (long s, bytes C5 BF) names SET. */
  lemma LongSNamesSet()
    ensures NameOf([0xC5 as char, 0xBF as char, 'e', 't']) == SetCmd
  {
    var s: Bytes := [0xC5 as char, 0xBF as char, 'e', 't'];
    assert UpperIs(s[2..][1..], "T");
    assert UpperIs(s[2..], "ET");
    assert UpperIs(s, "SET");
  }

  /**
    The replies are RESP values: GET's is the bulk string of what it shows
    and DEL's is the integer of its count.
   */
  lemma RepliesAreResp(out: Bytes, n: nat)
    ensures BulkReply(out) == Encode(BulkString(out))
    ensures CountReply(n) == Encode(Integer(Decimal(n)))
  {
  }

  /** The request decoder reads a GET reply (a non-empty line) back as the shown value. */
  lemma BulkReplyDecodes(out: Bytes)
    requires out != [] && NoCR(out)
    ensures ElementAt(BulkReply(out), 0) == Parsed(Decoded([out], None), |BulkReply(out)|)
  {
    var s := BulkReply(out);
    RepliesAreResp(out, 0);
    assert s[0..|s|] == s;
    ElementDecodes(s, 0, BulkString(out));
  }
}
