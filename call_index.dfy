/**
 * The per-method CalledMethodHandles dictionary of pass 1: every call
 * instruction with a non-null callee adds the callee's token with the
 * call-site key as its fallback name, unless the token is already there.
 */
module CallIndex {
  import opened Wrappers
  import opened Metadata
  import opened UniqueNaming
  import opened Records

  /** The keys of the dictionary, in insertion order. */
  function Handles(index: seq<CallIndexEntry>): (hs: seq<Token>)
    ensures |hs| == |index|
    ensures forall i :: 0 <= i < |index| ==> hs[i] == index[i].handle
  {
    seq(|index|, i requires 0 <= i < |index| => index[i].handle)
  }

  /** The fallback name stored under t (the dictionary's indexer). */
  function FallbackFor(index: seq<CallIndexEntry>, t: Token): Option<string>
  {
    if index == [] then None
    else if index[0].handle == t then Some(index[0].fallbackName)
    else FallbackFor(index[1..], t)
  }

  /** No token is a key twice: the shape every Dictionary has. */
  predicate DistinctHandles(index: seq<CallIndexEntry>) {
    forall i, j :: 0 <= i < j < |index| ==> index[i].handle != index[j].handle
  }

  /**
   * The fallback name each instruction would store: the call-site key of its
   * callee (instructions without a callee store nothing; "" stands in).
   */
  function FallbackNames(calls: seq<CallInstruction>): (names: seq<string>)
    ensures |names| == |calls|
    ensures forall i :: 0 <= i < |calls| && calls[i].callee.Some? ==> names[i] == CallSiteKeyOf(calls[i].callee.value)
  {
    seq(|calls|, i requires 0 <= i < |calls| =>
      match calls[i].callee case None => "" case Some(c) => CallSiteKeyOf(c))
  }

  /** One instruction of the loop at Program.cs:127-139, with the name it would store. */
  function AddCall(index: seq<CallIndexEntry>, inst: CallInstruction, name: string): seq<CallIndexEntry> {
    match inst.callee
    case None => index
    case Some(c) =>
      if c.token in Handles(index) then index
      else index + [CallIndexEntry(c.token, name)]
  }

  /** The instructions, in traversal order, added to `index`. */
  function AddCalls(index: seq<CallIndexEntry>, calls: seq<CallInstruction>, names: seq<string>): seq<CallIndexEntry>
    requires |names| == |calls|
    decreases |calls|
  {
    if calls == [] then index else AddCalls(AddCall(index, calls[0], names[0]), calls[1..], names[1..])
  }

  function CallIndexOf(calls: seq<CallInstruction>): seq<CallIndexEntry> {
    AddCalls([], calls, FallbackNames(calls))
  }

  method BuildCallIndex(calls: seq<CallInstruction>) returns (index: seq<CallIndexEntry>)
    ensures index == CallIndexOf(calls)
  {
    ghost var names := FallbackNames(calls);
    index := [];
    var i := 0;
    while i < |calls|
      invariant 0 <= i <= |calls|
      invariant AddCalls(index, calls[i..], names[i..]) == CallIndexOf(calls)
    {
      assert calls[i..][0] == calls[i] && names[i..][0] == names[i];
      assert calls[i..][1..] == calls[i + 1..] && names[i..][1..] == names[i + 1..];
      var calledMethodHandle := calls[i].callee;
      if calledMethodHandle.Some? {
        var callee := calledMethodHandle.value;
        if callee.token !in Handles(index) {
          var fallbackName := CallSiteKey(callee);
          index := index + [CallIndexEntry(callee.token, fallbackName)];
        }
      }
      i := i + 1;
    }
  }

  // ---------------------------------------------------------------- properties

  predicate HasCallee(calls: seq<CallInstruction>, t: Token) {
    exists i :: 0 <= i < |calls| && calls[i].callee.Some? && calls[i].callee.value.token == t
  }

  /** Processing a + b is processing a, then b. */
  lemma {:induction false} AddCallsAppend(
    index: seq<CallIndexEntry>, a: seq<CallInstruction>, b: seq<CallInstruction>, na: seq<string>, nb: seq<string>)
    requires |na| == |a| && |nb| == |b|
    ensures AddCalls(index, a + b, na + nb) == AddCalls(AddCalls(index, a, na), b, nb)
    decreases |a|
  {
    if a == [] {
      assert a + b == b && na + nb == nb;
    } else {
      assert (a + b)[0] == a[0] && (na + nb)[0] == na[0];
      assert (a + b)[1..] == a[1..] + b && (na + nb)[1..] == na[1..] + nb;
      AddCallsAppend(AddCall(index, a[0], na[0]), a[1..], b, na[1..], nb);
    }
  }

  lemma FallbackNamesAppend(a: seq<CallInstruction>, b: seq<CallInstruction>)
    ensures FallbackNames(a + b) == FallbackNames(a) + FallbackNames(b)
  {
  }

  /** An instruction whose callee is null changes nothing. */
  lemma NullCalleeIgnored(a: seq<CallInstruction>, b: seq<CallInstruction>)
    ensures CallIndexOf(a + [CallInstruction(None)] + b) == CallIndexOf(a + b)
  {
    var none := [CallInstruction(None)];
    var na, nb, nn := FallbackNames(a), FallbackNames(b), FallbackNames(none);
    FallbackNamesAppend(a + none, b);
    FallbackNamesAppend(a, none);
    FallbackNamesAppend(a, b);
    AddCallsAppend([], a + none, b, na + nn, nb);
    AddCallsAppend([], a, none, na, nn);
    AddCallsAppend([], a, b, na, nb);
    assert none[1..] == [] && nn[1..] == [];
  }

  lemma HandlesSnoc(index: seq<CallIndexEntry>, e: CallIndexEntry)
    ensures Handles(index + [e]) == Handles(index) + [e.handle]
  {
  }

  /** The step keeps each token once and keeps what was there. */
  lemma AddCallKeys(index: seq<CallIndexEntry>, inst: CallInstruction, name: string, t: Token)
    requires DistinctHandles(index)
    ensures DistinctHandles(AddCall(index, inst, name))
    ensures |index| <= |AddCall(index, inst, name)| && AddCall(index, inst, name)[..|index|] == index
    ensures t in Handles(AddCall(index, inst, name)) <==>
      t in Handles(index) || (inst.callee.Some? && inst.callee.value.token == t)
  {
    if inst.callee.Some? && inst.callee.value.token !in Handles(index) {
      var e := CallIndexEntry(inst.callee.value.token, name);
      HandlesSnoc(index, e);
      assert (index + [e])[..|index|] == index;
    }
  }

  /**
   * The loop keeps each token once, keeps what was there, and its keys are
   * exactly the previous keys plus the callee tokens of the instructions.
   */
  lemma {:induction false} AddCallsKeys(
    index: seq<CallIndexEntry>, calls: seq<CallInstruction>, names: seq<string>, t: Token)
    requires DistinctHandles(index) && |names| == |calls|
    ensures DistinctHandles(AddCalls(index, calls, names))
    ensures |index| <= |AddCalls(index, calls, names)|
    ensures AddCalls(index, calls, names)[..|index|] == index
    ensures t in Handles(AddCalls(index, calls, names)) <==> t in Handles(index) || HasCallee(calls, t)
    decreases |calls|
  {
    if calls != [] {
      var next := AddCall(index, calls[0], names[0]);
      AddCallKeys(index, calls[0], names[0], t);
      AddCallsKeys(next, calls[1..], names[1..], t);
      assert next[..|index|] == index;
      assert AddCalls(index, calls, names)[..|index|]
        == AddCalls(next, calls[1..], names[1..])[..|next|][..|index|];
      if HasCallee(calls[1..], t) {
        var i :| 0 <= i < |calls[1..]| && calls[1..][i].callee.Some? && calls[1..][i].callee.value.token == t;
        assert calls[i + 1] == calls[1..][i];
      }
      if HasCallee(calls, t) && !(calls[0].callee.Some? && calls[0].callee.value.token == t) {
        var i :| 0 <= i < |calls| && calls[i].callee.Some? && calls[i].callee.value.token == t;
        assert calls[1..][i - 1] == calls[i];
      }
    }
  }

  /** Each callee token occurs at most once. */
  lemma CallIndexDistinct(calls: seq<CallInstruction>)
    ensures DistinctHandles(CallIndexOf(calls))
  {
    AddCallsKeys([], calls, FallbackNames(calls), 0);
  }

  /** A token is a key exactly when some instruction calls it. */
  lemma CallIndexKeys(calls: seq<CallInstruction>, t: Token)
    ensures t in Handles(CallIndexOf(calls)) <==> HasCallee(calls, t)
  {
    AddCallsKeys([], calls, FallbackNames(calls), t);
  }

  /** Entries already present keep their fallback names. */
  lemma {:induction false} FallbackForPrefix(a: seq<CallIndexEntry>, b: seq<CallIndexEntry>, t: Token)
    requires t in Handles(a)
    ensures FallbackFor(a + b, t) == FallbackFor(a, t)
    decreases |a|
  {
    assert (a + b)[0] == a[0];
    if a[0].handle != t {
      assert (a + b)[1..] == a[1..] + b;
      assert t in Handles(a[1..]) by {
        var i :| 0 <= i < |a| && Handles(a)[i] == t;
        assert Handles(a[1..])[i - 1] == t;
      }
      FallbackForPrefix(a[1..], b, t);
    }
  }

  lemma {:induction false} FallbackForLast(a: seq<CallIndexEntry>, e: CallIndexEntry)
    requires e.handle !in Handles(a)
    ensures FallbackFor(a + [e], e.handle) == Some(e.fallbackName)
    decreases |a|
  {
    if a == [] {
      assert [e][0] == e;
    } else {
      assert (a + [e])[0] == a[0];
      assert Handles(a)[0] == a[0].handle;
      assert (a + [e])[1..] == a[1..] + [e];
      assert e.handle !in Handles(a[1..]) by {
        forall i | 0 <= i < |a[1..]|
          ensures Handles(a[1..])[i] != e.handle
        {
          assert Handles(a[1..])[i] == Handles(a)[i + 1];
        }
      }
      FallbackForLast(a[1..], e);
    }
  }

  /** Entries are never removed, so later instructions keep a stored fallback name. */
  lemma LaterCallsKeepFallback(index: seq<CallIndexEntry>, calls: seq<CallInstruction>, names: seq<string>, t: Token)
    requires DistinctHandles(index) && t in Handles(index) && |names| == |calls|
    ensures FallbackFor(AddCalls(index, calls, names), t) == FallbackFor(index, t)
  {
    AddCallsKeys(index, calls, names, t);
    var all := AddCalls(index, calls, names);
    assert all == index + all[|index|..];
    FallbackForPrefix(index, all[|index|..], t);
  }

  /** Processing one more instruction at the end. */
  lemma AddCallsSnoc(index: seq<CallIndexEntry>, a: seq<CallInstruction>, x: CallInstruction, na: seq<string>, n: string)
    requires |na| == |a|
    ensures AddCalls(index, a + [x], na + [n]) == AddCall(AddCalls(index, a, na), x, n)
  {
    AddCallsAppend(index, a, [x], na, [n]);
    assert [x][1..] == [] && [n][1..] == [];
  }

  /** A token first called by x keeps the name x stores, whatever follows. */
  lemma FirstCallerNameKept(
    a: seq<CallInstruction>, x: CallInstruction, b: seq<CallInstruction>,
    na: seq<string>, n: string, nb: seq<string>)
    requires |na| == |a| && |nb| == |b| && x.callee.Some?
    requires !HasCallee(a, x.callee.value.token)
    ensures FallbackFor(AddCalls([], a + [x] + b, na + [n] + nb), x.callee.value.token) == Some(n)
  {
    var t := x.callee.value.token;
    var before := AddCalls([], a, na);
    AddCallsKeys([], a, na, t);
    var e := CallIndexEntry(t, n);
    var mid := AddCall(before, x, n);
    assert mid == before + [e];
    AddCallKeys(before, x, n, t);
    FallbackForLast(before, e);
    AddCallsSnoc([], a, x, na, n);
    AddCallsAppend([], a + [x], b, na + [n], nb);
    LaterCallsKeepFallback(mid, b, nb, t);
  }

  /** With any names: the first call site of a token decides the name kept for it. */
  lemma FirstNameKept(calls: seq<CallInstruction>, names: seq<string>, i: nat)
    requires |names| == |calls| && i < |calls| && calls[i].callee.Some?
    requires !HasCallee(calls[..i], calls[i].callee.value.token)
    ensures FallbackFor(AddCalls([], calls, names), calls[i].callee.value.token) == Some(names[i])
  {
    assert calls == calls[..i] + [calls[i]] + calls[i + 1..];
    assert names == names[..i] + [names[i]] + names[i + 1..];
    FirstCallerNameKept(calls[..i], calls[i], calls[i + 1..], names[..i], names[i], names[i + 1..]);
  }

  /** The fallback name kept for a token is the key of its first call site. */
  lemma CallIndexFirstFallback(calls: seq<CallInstruction>, i: nat)
    requires i < |calls| && calls[i].callee.Some?
    requires !HasCallee(calls[..i], calls[i].callee.value.token)
    ensures FallbackFor(CallIndexOf(calls), calls[i].callee.value.token)
            == Some(CallSiteKeyOf(calls[i].callee.value))
  {
    FirstNameKept(calls, FallbackNames(calls), i);
  }

  /** Every stored name ends with its entry's token when every name ends with its callee's. */
  lemma {:induction false} AddCallsFallbacks(index: seq<CallIndexEntry>, calls: seq<CallInstruction>, names: seq<string>)
    requires |names| == |calls|
    requires forall k :: 0 <= k < |calls| && calls[k].callee.Some? ==> EndsWithToken(names[k], calls[k].callee.value.token)
    requires forall k :: 0 <= k < |index| ==> EndsWithToken(index[k].fallbackName, index[k].handle)
    ensures forall k :: 0 <= k < |AddCalls(index, calls, names)| ==>
      EndsWithToken(AddCalls(index, calls, names)[k].fallbackName, AddCalls(index, calls, names)[k].handle)
    decreases |calls|
  {
    if calls != [] {
      assert forall k :: 0 <= k < |calls[1..]| ==> calls[1..][k] == calls[k + 1] && names[1..][k] == names[k + 1];
      AddCallsFallbacks(AddCall(index, calls[0], names[0]), calls[1..], names[1..]);
    }
  }

  /** Every fallback name is a key that ends with its own entry's token. */
  lemma CallIndexFallbacksCarryTokens(calls: seq<CallInstruction>)
    ensures forall k :: 0 <= k < |CallIndexOf(calls)| ==>
      EndsWithToken(CallIndexOf(calls)[k].fallbackName, CallIndexOf(calls)[k].handle)
  {
    var names := FallbackNames(calls);
    forall k | 0 <= k < |calls| && calls[k].callee.Some?
      ensures EndsWithToken(names[k], calls[k].callee.value.token)
    {
      CallSiteKeyEndsWithToken(calls[k].callee.value);
    }
    AddCallsFallbacks([], calls, names);
  }
}
