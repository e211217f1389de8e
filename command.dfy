/**
  The command engine of `command/command.go` over the package-level
  `cache`: a `Store` object whose map and queue of expiry timers the
  command methods update in place. Each method is proved to do what the
  functions of `CommandSpec` describe.
 */
module Command {
  import opened Text
  import opened CommandSpec

  lemma ListedStep(keys: seq<Bytes>, i: nat)
    requires i < |keys|
    ensures Listed(keys[..i + 1]) == Listed(keys[..i]) + {keys[i]}
  {
    assert keys[..i + 1] == keys[..i] + [keys[i]];
  }

  /** One key of DEL: the key leaves the store, and the count grows exactly when it was still there. */
  lemma DelStep(before: map<Bytes, Bytes>, done: set<Bytes>, key: Bytes)
    ensures key in before - done ==>
      (before - done) - {key} == before - (done + {key}) &&
      |before.Keys * (done + {key})| == |before.Keys * done| + 1
    ensures key !in before - done ==>
      before - done == before - (done + {key}) &&
      before.Keys * (done + {key}) == before.Keys * done
  {
    if key in before - done {
      assert before.Keys * (done + {key}) == (before.Keys * done) + {key};
    }
  }

  /**
    The shared store: the `cache` map, the expiry goroutines still asleep
    (in the order they were started), and `strconv.Unquote`, whose escape
    grammar is not part of this model.
   */
  class Store {
    var cache: map<Bytes, Bytes>
    var pending: seq<Expiry>
    const unquote: Bytes -> Option<Bytes>

    constructor (unquote: Bytes -> Option<Bytes>)
      ensures cache == map[] && pending == [] && this.unquote == unquote
    {
      cache := map[];
      pending := [];
      this.unquote := unquote;
    }

    /** `Handle`: dispatch on the command name; an empty invocation has none and panics. */
    method Handle(args: seq<Bytes>) returns (o: Outcome)
      modifies this
      ensures Effect(cache, pending, o) == Execute(old(cache), old(pending), args, unquote)
    {
      if |args| == 0 {
        return Crashed;
      }
      match NameOf(args[0])
      case GetCmd =>
        o := Get(args);
      case SetCmd =>
        o := Set(args);
      case DelCmd =>
        o := Del(args);
      case QuitCmd =>
        o := Quit(args);
      case Other =>
        o := Replied(UnknownCommand(args[0]), true);
    }

    /** `Get`: reads the store and never changes it. */
    method Get(args: seq<Bytes>) returns (o: Outcome)
      requires |args| >= 1
      ensures o == GetOutcome(cache, args, unquote)
    {
      if |args| != 2 {
        return Replied(WrongArity(args[0]), true);
      }
      var key := args[1];
      if key in cache {
        var output := cache[key];
        if |output| > 0 && output[0] == '"' {
          var u := unquote(output);
          output := if u.Some? then u.value else [];
        }
        o := Replied(BulkReply(output), true);
      } else {
        o := Replied(NULL, true);
      }
    }

    /** `Set`, with its NX/XX condition and its optional expiry. */
    method Set(args: seq<Bytes>) returns (o: Outcome)
      requires |args| >= 1
      modifies this`cache, this`pending
      ensures Effect(cache, pending, o) == SetEffect(old(cache), old(pending), args)
    {
      var numArgs := |args|;
      if numArgs < 3 || numArgs > 6 {
        return Replied(WrongArity(args[0]), true);
      }
      if numArgs > 3 {
        var index := 3;
        var option := args[index];
        NotBothConditions(option);
        var ok := args[1] in cache;
        if UpperIs(option, "NX") {
          if ok {
            return Replied(NULL, true);
          }
          index := index + 1;
        } else if UpperIs(option, "XX") {
          if !ok {
            return Replied(NULL, true);
          }
          index := index + 1;
        }
        if index < numArgs {
          var failure := SetExpiration(args, index);
          if failure.Some? {
            return failure.value;
          }
        }
      }
      cache := cache[args[1] := args[2]];
      o := Replied(OK, true);
    }

    /**
      `setExpiration`: reads the amount after the option, then starts the
      timer for EX or PX. None when the timer was started; otherwise the
      outcome of the whole request: the option error, or the panic of
      reading past the last argument.
     */
    method SetExpiration(args: seq<Bytes>, index: nat) returns (failure: Option<Outcome>)
      requires 2 <= index < |args|
      modifies this`pending
      ensures index + 1 == |args| ==> failure == Some(Crashed) && pending == old(pending)
      ensures index + 1 < |args| && ExpiryOf(args, index).None? ==>
        failure == Some(Replied(BAD_EXPIRY, true)) && pending == old(pending)
      ensures index + 1 < |args| && ExpiryOf(args, index).Some? ==>
        failure == None && pending == old(pending) + [ExpiryOf(args, index).value]
    {
      if index + 1 == |args| {
        // Args[index+1] is out of range
        return Some(Crashed);
      }
      var option := args[index];
      var value := Atoi(args[index + 1]);
      var delayMs;
      if UpperIs(option, "EX") {
        delayMs := value * 1000;
      } else if UpperIs(option, "PX") {
        delayMs := value;
      } else {
        return Some(Replied(BAD_EXPIRY, true));
      }
      pending := pending + [Expiry(args[1], delayMs)];
      failure := None;
    }

    /** `Del`: deletes each listed key, counting those that were present. */
    method Del(args: seq<Bytes>) returns (o: Outcome)
      requires |args| >= 1
      modifies this`cache
      ensures Effect(cache, pending, o) == DelEffect(old(cache), pending, args)
    {
      if |args| < 2 {
        return Replied(WrongArity(args[0]), true);
      }
      var keys := args[1..];
      var count := 0;
      var i := 0;
      ghost var before := cache;
      ghost var done: set<Bytes> := {};
      while i < |keys|
        invariant i <= |keys|
        invariant done == Listed(keys[..i])
        invariant cache == before - done
        invariant count == |before.Keys * done|
      {
        var key := keys[i];
        ListedStep(keys, i);
        DelStep(before, done, key);
        if key in cache {
          cache := cache - {key};
          count := count + 1;
        }
        done := done + {key};
        i := i + 1;
      }
      assert keys[..i] == keys;
      o := Replied(CountReply(count), true);
    }

    /** `Quit`: the only command that asks to close the connection. */
    method Quit(args: seq<Bytes>) returns (o: Outcome)
      requires |args| >= 1
      ensures o == QuitOutcome(args)
    {
      if |args| != 1 {
        return Replied(WrongArity(args[0]), true);
      }
      o := Replied(OK, false);
    }

    /** The expiry goroutine `i` wakes up and runs `cache.Delete`. */
    method Fire(i: nat)
      requires i < |pending|
      modifies this`cache, this`pending
      ensures (cache, pending) == FireAt(old(cache), old(pending), i)
    {
      cache := cache - {pending[i].key};
      pending := pending[..i] + pending[i + 1..];
    }
  }
}
