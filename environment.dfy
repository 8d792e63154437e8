/** The scenario environment: how Go errors become Lua errors, the outcome of
    an asynchronous call, the ordered registry of open tabs and the
    collection of an event handler's results. */
module Environment {
  import opened Wrappers
  import opened Convert

  // ---------------------------------------------------------------------
  // Errors
  // ---------------------------------------------------------------------

  /** The context errors that `errors.Is` can find in an error's chain. */
  datatype Sentinel = DeadlineExceeded | Canceled

  /** A Go error: its message and the sentinels its wrap chain contains. */
  datatype GoError = GoError(message: string, chain: set<Sentinel>)

  /** HandleError: the message raised in Lua for `err`, or None when `err`
      is nil. A deadline is tested before a cancellation. */
  function HandleError(err: Option<GoError>): (raised: Option<string>)
    ensures raised.None? <==> err.None?
    ensures err.Some? && DeadlineExceeded in err.value.chain ==> raised == Some("timeout")
    ensures err.Some? && DeadlineExceeded !in err.value.chain && Canceled in err.value.chain
            ==> raised == Some("interrupted")
    ensures err.Some? && err.value.chain == {} ==> raised == Some(err.value.message)
  {
    match err
    case None => None
    case Some(e) =>
      if DeadlineExceeded in e.chain then Some("timeout")
      else if Canceled in e.chain then Some("interrupted")
      else Some(e.message)
  }

  /** Whatever the error, the raised message is one of three: "timeout",
      "interrupted" or the error's own message. */
  lemma HandleErrorClassifies(e: GoError)
    ensures HandleError(Some(e)).Some?
    ensures HandleError(Some(e)).value in {"timeout", "interrupted", e.message}
    ensures HandleError(Some(e)).value == e.message <== e.chain == {}
  {
  }

  /** An error that is both a deadline and a cancellation is a timeout. */
  lemma TimeoutWinsOverCancel(message: string)
    ensures HandleError(Some(GoError(message, {DeadlineExceeded, Canceled}))) == Some("timeout")
  {
  }

  // ---------------------------------------------------------------------
  // AsyncRun
  // ---------------------------------------------------------------------

  /** What a Lua caller sees after AsyncRun: f's value, or a raised error. */
  datatype Outcome<T> = Returned(value: T) | Raised(message: string)

  /** AsyncRun: the outcome of `f` returning `(x, err)`; the unlocking around
      the call is not modelled. */
  function AsyncRunOutcome<T>(x: T, err: Option<GoError>): (o: Outcome<T>)
    ensures o.Returned? <==> err.None?
    ensures o.Returned? ==> o.value == x
    ensures o.Raised? ==> HandleError(err) == Some(o.message)
  {
    match HandleError(err)
    case None => Returned(x)
    case Some(m) => Raised(m)
  }

  // ---------------------------------------------------------------------
  // Tabs
  // ---------------------------------------------------------------------

  /** A browser tab; only its identity matters here. */
  class Tab {
  }

  /** The list `s` with every occurrence of `t` removed, the others in order. */
  function Without<T(==)>(s: seq<T>, t: T): (r: seq<T>)
    ensures |r| <= |s|
    ensures t !in r
    ensures forall x :: x in r ==> x in s
    decreases |s|
  {
    if s == [] then []
    else Without(s[..|s| - 1], t) + (if s[|s| - 1] == t then [] else [s[|s| - 1]])
  }

  lemma {:induction false} WithoutMembership<T>(s: seq<T>, t: T, x: T)
    ensures x in Without(s, t) <==> x in s && x != t
    decreases |s|
  {
    if s != [] {
      WithoutMembership(s[..|s| - 1], t, x);
      assert s == s[..|s| - 1] + [s[|s| - 1]];
    }
  }

  /** Removing distributes over concatenation, so the kept tabs keep their order. */
  lemma {:induction false} WithoutConcat<T>(s: seq<T>, u: seq<T>, t: T)
    ensures Without(s + u, t) == Without(s, t) + Without(u, t)
    decreases |u|
  {
    if u == [] {
      assert s + u == s;
    } else {
      var u' := u[..|u| - 1];
      assert (s + u)[..|s + u| - 1] == s + u';
      WithoutConcat(s, u', t);
    }
  }

  /** When `t` does not occur, nothing is removed. */
  lemma {:induction false} WithoutAbsent<T>(s: seq<T>, t: T)
    requires t !in s
    ensures Without(s, t) == s
    decreases |s|
  {
    if s != [] {
      assert t !in s[..|s| - 1];
      WithoutAbsent(s[..|s| - 1], t);
    }
  }

  /** Exactly the occurrences of `t` are removed. */
  lemma {:induction false} WithoutCount<T>(s: seq<T>, t: T)
    ensures multiset(Without(s, t)) == multiset(s)[t := 0]
    decreases |s|
  {
    if s != [] {
      var init, last := s[..|s| - 1], s[|s| - 1];
      WithoutCount(init, t);
      assert s == init + [last];
      assert multiset(s) == multiset(init) + multiset{last};
      if last == t {
        assert Without(s, t) == Without(init, t);
        assert multiset(s)[t := 0] == multiset(init)[t := 0];
      } else {
        assert Without(s, t) == Without(init, t) + [last];
        assert multiset(s)[t := 0] == multiset(init)[t := 0] + multiset{last};
      }
    }
  }

  /** Removing twice is removing once. */
  lemma WithoutIdempotent<T>(s: seq<T>, t: T)
    ensures Without(Without(s, t), t) == Without(s, t)
  {
    forall x | x in Without(s, t) ensures x != t {
      WithoutMembership(s, t, x);
    }
    WithoutAbsent(Without(s, t), t);
  }

  /** The tab registry of an Environment. */
  class Environment {
    var tabs: seq<Tab>

    /** NewEnvironment starts with no tabs. */
    constructor()
      ensures tabs == []
    {
      tabs := [];
    }

    /** registerTab: `t` goes at the end. */
    method RegisterTab(t: Tab)
      modifies this
      ensures tabs == old(tabs) + [t]
    {
      tabs := tabs + [t];
    }

    /** unregisterTab: rebuilds the list from the tabs other than `t`. */
    method UnregisterTab(t: Tab)
      modifies this
      ensures tabs == Without(old(tabs), t)
    {
      var kept: seq<Tab> := [];
      var i := 0;
      while i < |tabs|
        invariant 0 <= i <= |tabs|
        invariant kept == Without(tabs[..i], t)
      {
        assert tabs[..i + 1][..i] == tabs[..i];
        if tabs[i] != t {
          kept := kept + [tabs[i]];
        }
        i := i + 1;
      }
      assert tabs[..i] == tabs;
      tabs := kept;
    }
  }

  /** Registering a tab that was not open and unregistering it again
      restores the registry. */
  lemma RegisterThenUnregister(tabs: seq<Tab>, t: Tab)
    requires t !in tabs
    ensures Without(tabs + [t], t) == tabs
  {
    WithoutConcat(tabs, [t], t);
    WithoutAbsent(tabs, t);
    assert Without([t], t) == [] by {
      assert [t][..0] == [];
    }
  }

  // ---------------------------------------------------------------------
  // CallEventHandler
  // ---------------------------------------------------------------------

  /** The value at stack position `i` (1-based); nil past the top. */
  function StackGet(stack: seq<LValue>, i: int): (v: LValue)
    ensures 1 <= i <= |stack| ==> v == stack[i - 1]
    ensures !(1 <= i <= |stack|) ==> v == LNil
  {
    if 1 <= i <= |stack| then stack[i - 1] else LNil
  }

  /** CallEventHandler's result collection: the values at positions 1..nret
      of the stack left by the call, none when nret is not positive. */
  method CollectResults(stack: seq<LValue>, nret: int) returns (result: seq<LValue>)
    ensures |result| == (if nret > 0 then nret else 0)
    ensures forall j :: 0 <= j < |result| ==> result[j] == StackGet(stack, j + 1)
    ensures 0 <= nret <= |stack| ==> result == stack[..nret]
    ensures forall j :: |stack| <= j < |result| ==> result[j] == LNil
  {
    result := [];
    var i := 1;
    while i <= nret
      invariant 1 <= i <= (if nret > 0 then nret else 0) + 1
      invariant |result| == i - 1
      invariant forall j :: 0 <= j < |result| ==> result[j] == StackGet(stack, j + 1)
    {
      result := result + [StackGet(stack, i)];
      i := i + 1;
    }
    if 0 <= nret <= |stack| {
      assert forall j :: 0 <= j < nret ==> result[j] == stack[j];
    }
  }
}
