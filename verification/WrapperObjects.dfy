/**
 `cl::detail::Wrapper<T>` and the reference-counted `getInfoHelper` overloads as
 they are written: objects whose `object_` field changes in place, beside a
 driver that counts references.  Each member function is proved to perform the
 operation of the same name of module `RefCounting`.
 */
module WrapperObjects {
  import opened Common
  import opened OpenCL
  import opened RefCounting

  /** The OpenCL driver, seen through `clRetain*` and `clRelease*`. */
  class Driver {
    var count: map<Handle, nat>
    var faults: nat

    constructor ()
      ensures count == map[] && faults == 0
    {
      count, faults := map[], 0;
    }

    method Retain(h: Handle) returns (err: int)
      modifies this
      ensures var s := RefCounting.Retain(old(Counters()), h); count == s.count && faults == s.faults
      ensures err == CL_SUCCESS <==> h in old(count)
    {
      if h in count {
        count := count[h := count[h] + 1];
        err := CL_SUCCESS;
      } else {
        faults := faults + 1;
        err := CL_INVALID_OBJECT;
      }
    }

    method Release(h: Handle) returns (err: int)
      modifies this
      ensures var s := RefCounting.Release(old(Counters()), h); count == s.count && faults == s.faults
      ensures err == CL_SUCCESS <==> h in old(count)
    {
      if h in count {
        count := if count[h] > 1 then count[h := count[h] - 1] else count - {h};
        err := CL_SUCCESS;
      } else {
        faults := faults + 1;
        err := CL_INVALID_OBJECT;
      }
    }

    /** The driver's part of a world. */
    ghost function Counters(): World<()>
      reads this
    {
      World(count, map[], faults)
    }
  }

  /** The world made of the driver and the wrappers that are alive. */
  ghost function View(d: Driver, live: set<Wrapper>): World<Wrapper>
    reads d, live
  {
    World(d.count, map w | w in live :: w.handle, d.faults)
  }

  class Wrapper {
    var handle: Handle

    constructor Default(d: Driver, ghost live: set<Wrapper>)
      ensures handle == NULL
      ensures View(d, live + {this}) == Apply(old(View(d, live)), Op.Default(this))
    {
      handle := NULL;
    }

    constructor Adopt(d: Driver, ghost live: set<Wrapper>, h: Handle)
      ensures handle == h
      ensures View(d, live + {this}) == Apply(old(View(d, live)), Op.Adopt(this, h))
    {
      handle := h;
    }

    constructor Copy(d: Driver, ghost live: set<Wrapper>, rhs: Wrapper)
      requires rhs in live
      modifies d
      ensures handle == old(rhs.handle) == rhs.handle
      ensures View(d, live + {this}) == Apply(old(View(d, live)), Op.Copy(this, rhs))
    {
      handle := rhs.handle;
      new;
      RetainHeld(d, live + {this});
    }

    constructor Move(d: Driver, ghost live: set<Wrapper>, rhs: Wrapper)
      requires rhs in live
      modifies rhs
      ensures handle == old(rhs.handle) && rhs.handle == NULL
      ensures View(d, live + {this}) == Apply(old(View(d, live)), Op.Move(this, rhs))
    {
      handle := rhs.handle;
      new;
      rhs.handle := NULL;
    }

    /** Retains the held handle, if there is one. */
    method RetainHeld(d: Driver, ghost live: set<Wrapper>)
      modifies d
      ensures View(d, live) == RetainNonNull(old(View(d, live)), handle)
    {
      if handle != NULL {
        var _ := d.Retain(handle);
      }
    }

    /** Releases the held handle, if there is one. */
    method ReleaseHeld(d: Driver, ghost live: set<Wrapper>)
      modifies d
      ensures View(d, live) == ReleaseNonNull(old(View(d, live)), handle)
    {
      if handle != NULL {
        var _ := d.Release(handle);
      }
    }

    method Destroy(d: Driver, ghost live: set<Wrapper>)
      requires this in live
      modifies d
      ensures View(d, live - {this}) == Apply(old(View(d, live)), Op.Destroy(this))
    {
      ReleaseHeld(d, live);
    }

    method CopyAssign(d: Driver, ghost live: set<Wrapper>, rhs: Wrapper)
      requires this in live && rhs in live
      modifies this, d
      ensures handle == old(rhs.handle) == rhs.handle
      ensures View(d, live) == Apply(old(View(d, live)), Op.CopyAssign(this, rhs))
    {
      if this != rhs {
        ReleaseHeld(d, live);
        handle := rhs.handle;
        RetainHeld(d, live);
      }
    }

    method MoveAssign(d: Driver, ghost live: set<Wrapper>, rhs: Wrapper)
      requires this in live && rhs in live
      modifies this, rhs, d
      ensures handle == old(rhs.handle) && (rhs != this ==> rhs.handle == NULL)
      ensures View(d, live) == Apply(old(View(d, live)), Op.MoveAssign(this, rhs))
    {
      if this != rhs {
        ReleaseHeld(d, live);
        handle := rhs.handle;
        rhs.handle := NULL;
      }
    }

    method RawAssign(d: Driver, ghost live: set<Wrapper>, h: Handle)
      requires this in live
      modifies this, d
      ensures handle == h
      ensures View(d, live) == Apply(old(View(d, live)), Op.RawAssign(this, h))
    {
      ReleaseHeld(d, live);
      handle := h;
    }
  }

  // ------------------------------------------------------------ information queries

  /** Every handle the query reports is null or kept alive by an owner outside the wrappers. */
  predicate KeptAlive(answer: seq<Handle>, raw: multiset<Handle>) {
    forall i :: 0 <= i < |answer| ==> answer[i] == NULL || answer[i] in raw
  }

  /** The overload for one wrapper; `answer` is what the query function reports. */
  method GetInfo(d: Driver, ghost live: set<Wrapper>, ghost raw: multiset<Handle>,
                 param: Wrapper, answer: Result<Handle, int>)
    returns (err: int)
    requires param in live && Balanced(View(d, live), raw)
    requires answer.Err? ==> answer.error != CL_SUCCESS
    requires answer.Ok? ==> KeptAlive([answer.value], raw)
    modifies param, d
    ensures match answer
            case Err(e) => err == e && View(d, live) == old(View(d, live))
            case Ok(h) => err == CL_SUCCESS && param.handle == h
                          && View(d, live) == Apply(old(View(d, live)), Op.Info(param, h))
    ensures Balanced(View(d, live), raw) && d.faults == old(d.faults)
  {
    if answer.Err? {
      return answer.error;
    }
    var value := answer.value;
    assert value == NULL || value in raw by { assert [value][0] == value; }
    ghost var before := View(d, live);
    ReplaceKeeps(before, raw, param, value);
    StillAlive(before, raw, param, value);
    err := AssignAndRetain(d, live, param, value);
  }

  /** Adopts the handle, then retains it. */
  method AssignAndRetain(d: Driver, ghost live: set<Wrapper>, param: Wrapper, value: Handle) returns (err: int)
    requires param in live
    modifies param, d
    ensures View(d, live) == Apply(old(View(d, live)), Op.Info(param, value)) && param.handle == value
    ensures err == CL_SUCCESS <==> value == NULL || value in Apply(old(View(d, live)), Op.RawAssign(param, value)).count
  {
    param.RawAssign(d, live, value);
    ghost var overwritten := View(d, live);
    if value != NULL {
      err := d.Retain(param.handle);
      assert View(d, live) == RetainNonNull(overwritten, value);
      if err != CL_SUCCESS {
        return err;
      }
    }
    return CL_SUCCESS;
  }

  /** What an owner keeps alive survives the release of the overwritten handle. */
  lemma StillAlive<W>(s: World<W>, raw: multiset<Handle>, w: W, h: Handle)
    requires Balanced(s, raw) && w in s.held && (h == NULL || h in raw)
    ensures h != NULL ==> h in Apply(s, Op.RawAssign(w, h)).count
  {
    DropKeeps(s, s.held, raw, w);
    if h != NULL {
      OwnedIsAlive(ReleaseNonNull(s, Take(s, w)).count, s.held - {w}, raw, h);
    }
  }

  ghost predicate Distinct(ws: seq<Wrapper>) {
    forall i, j :: 0 <= i < j < |ws| ==> ws[i] != ws[j]
  }

  ghost function Elements(ws: seq<Wrapper>): set<Wrapper> {
    set w | w in ws
  }

  lemma {:induction false} ElementsSnoc(ws: seq<Wrapper>, w: Wrapper)
    requires Distinct(ws) && w !in Elements(ws)
    ensures Distinct(ws + [w]) && Elements(ws + [w]) == Elements(ws) + {w}
  {
    forall i | 0 <= i < |ws| ensures ws[i] != w {
      assert ws[i] in Elements(ws);
    }
  }

  /** A live set in which `unpaid` hold handles that nobody has retained for them. */
  ghost predicate Owing(d: Driver, live: set<Wrapper>, unpaid: set<Wrapper>, raw: multiset<Handle>)
    reads d, live
  {
    Backed(d.count, View(d, live).held - unpaid, raw)
  }

  /** An element is overwritten with a handle nobody retained for it. */
  method OverwriteUnpaid(d: Driver, ghost live: set<Wrapper>, ghost raw: multiset<Handle>,
                         ghost unpaid: set<Wrapper>, w: Wrapper, h: Handle)
    requires w in live - unpaid && Owing(d, live, unpaid, raw)
    modifies d, w
    ensures w.handle == h && Owing(d, live, unpaid + {w}, raw) && d.faults == old(d.faults)
  {
    ghost var before := View(d, live);
    DropKeeps(before, before.held - unpaid, raw, w);
    w.RawAssign(d, live, h);
    assert View(d, live).held - (unpaid + {w}) == before.held - unpaid - {w};
  }

  /** An element is constructed from a handle nobody retained for it. */
  method ConstructUnpaid(d: Driver, ghost live: set<Wrapper>, ghost raw: multiset<Handle>,
                         ghost unpaid: set<Wrapper>, h: Handle)
    returns (w: Wrapper)
    requires Owing(d, live, unpaid, raw)
    ensures fresh(w) && w.handle == h && Owing(d, live + {w}, unpaid + {w}, raw)
  {
    ghost var before := View(d, live);
    w := new Wrapper.Adopt(d, live, h);
    assert View(d, live + {w}).held - (unpaid + {w}) == before.held - unpaid;
  }

  /** `vector::assign`, first part: overwrite the elements that are there. */
  method OverwritePrefix(d: Driver, ghost live: set<Wrapper>, ghost raw: multiset<Handle>,
                         param: seq<Wrapper>, values: seq<Handle>)
    requires |param| == |values| && Elements(param) <= live && Distinct(param)
    requires Balanced(View(d, live), raw)
    modifies d, Elements(param)
    ensures forall i :: 0 <= i < |param| ==> param[i].handle == values[i]
    ensures Owing(d, live, Elements(param), raw) && d.faults == old(d.faults)
  {
    assert View(d, live).held - Elements(param[..0]) == View(d, live).held;
    for i := 0 to |values|
      invariant forall k :: 0 <= k < i ==> param[k].handle == values[k]
      invariant Owing(d, live, Elements(param[..i]), raw) && d.faults == old(d.faults)
    {
      assert param[i] in Elements(param) && param[i] !in param[..i];
      OverwriteUnpaid(d, live, raw, Elements(param[..i]), param[i], values[i]);
      assert Elements(param[..i + 1]) == Elements(param[..i]) + {param[i]};
    }
    assert param[..|values|] == param;
  }

  /** `vector::assign`, when the range is longer than the vector: construct the rest. */
  method ConstructRest(d: Driver, ghost live: set<Wrapper>, ghost raw: multiset<Handle>,
                       ghost unpaid: set<Wrapper>, values: seq<Handle>)
    returns (result: seq<Wrapper>)
    requires Owing(d, live, unpaid, raw)
    ensures |result| == |values| && Distinct(result) && fresh(Elements(result))
    ensures forall i :: 0 <= i < |result| ==> result[i].handle == values[i]
    ensures Owing(d, live + Elements(result), unpaid + Elements(result), raw)
  {
    result := [];
    ghost var done: set<Wrapper>, now, owing := {}, live, unpaid;
    for i := 0 to |values|
      invariant |result| == i && Distinct(result) && fresh(done)
      invariant forall k :: 0 <= k < i ==> result[k] in done && result[k].handle == values[k]
      invariant done == Elements(result) && now == live + done && owing == unpaid + done
      invariant Owing(d, now, owing, raw)
    {
      var w := ConstructUnpaid(d, now, raw, owing, values[i]);
      ElementsSnoc(result, w);
      result := result + [w];
      done, now, owing := done + {w}, now + {w}, owing + {w};
    }
  }

  /** An element with a reference of its own is destroyed while others still owe theirs. */
  method DestroyPaid(d: Driver, ghost live: set<Wrapper>, ghost raw: multiset<Handle>,
                     w: Wrapper, ghost unpaid: set<Wrapper>)
    returns (ghost live': set<Wrapper>)
    requires w in live - unpaid && Owing(d, live, unpaid, raw)
    modifies d
    ensures live' == live - {w} && Owing(d, live', unpaid, raw) && d.faults == old(d.faults)
  {
    ghost var before := View(d, live);
    DropKeeps(before, before.held - unpaid, raw, w);
    w.Destroy(d, live);
    live' := live - {w};
    assert View(d, live').held - unpaid == before.held - unpaid - {w};
  }

  /** `vector::assign`, when the range is shorter: destroy the elements beyond the new end. */
  method DestroySurplus(d: Driver, ghost live: set<Wrapper>, ghost raw: multiset<Handle>,
                        surplus: seq<Wrapper>, ghost unpaid: set<Wrapper>)
    returns (ghost live': set<Wrapper>)
    requires Elements(surplus) <= live - unpaid && Distinct(surplus) && Owing(d, live, unpaid, raw)
    modifies d
    ensures live' == live - Elements(surplus)
    ensures Owing(d, live', unpaid, raw) && d.faults == old(d.faults)
  {
    live' := live;
    for i := 0 to |surplus|
      invariant live' == live - Elements(surplus[..i])
      invariant Owing(d, live', unpaid, raw) && d.faults == old(d.faults)
    {
      assert surplus[i] in Elements(surplus) && surplus[i] !in surplus[..i];
      live' := DestroyPaid(d, live', raw, surplus[i], unpaid);
      assert Elements(surplus[..i + 1]) == Elements(surplus[..i]) + {surplus[i]};
    }
    assert surplus[..|surplus|] == surplus;
  }

  method AssignRange(d: Driver, ghost live: set<Wrapper>, ghost raw: multiset<Handle>,
                     param: seq<Wrapper>, values: seq<Handle>)
    returns (result: seq<Wrapper>, ghost live': set<Wrapper>)
    requires Elements(param) <= live && Distinct(param) && Balanced(View(d, live), raw)
    modifies d, Elements(param)
    ensures |result| == |values| && Distinct(result)
    ensures forall i :: 0 <= i < |result| ==> result[i].handle == values[i]
    ensures live' == live - Elements(param) + Elements(result)
    ensures Owing(d, live', Elements(result), raw) && d.faults == old(d.faults)
  {
    var n := if |param| < |values| then |param| else |values|;
    var prefix := param[..n];
    OverwritePrefix(d, live, raw, prefix, values[..n]);
    if n < |param| {
      result := prefix;
      live' := DestroySurplus(d, live, raw, param[n..], Elements(prefix));
      assert Elements(param) == Elements(prefix) + Elements(param[n..]);
    } else {
      var rest := ConstructRest(d, live, raw, Elements(prefix), values[n..]);
      forall i, j | 0 <= i < |prefix| && 0 <= j < |rest|
        ensures prefix[i] != rest[j]
      {
        assert prefix[i] in Elements(param) && rest[j] in Elements(rest);
      }
      result, live' := prefix + rest, live + Elements(rest);
      assert Elements(result) == Elements(prefix) + Elements(rest);
    }
  }

  /** The retain loop: each step pays for one more element. */
  method RetainAll(d: Driver, ghost live: set<Wrapper>, ghost raw: multiset<Handle>,
                   param: seq<Wrapper>, values: seq<Handle>)
    returns (err: int)
    requires |param| == |values| && Distinct(param) && Elements(param) <= live
    requires forall i :: 0 <= i < |param| ==> param[i].handle == values[i]
    requires Owing(d, live, Elements(param), raw) && KeptAlive(values, raw)
    modifies d
    ensures err == CL_SUCCESS && Balanced(View(d, live), raw) && d.faults == old(d.faults)
  {
    var i := 0;
    assert param[0..] == param;
    while i < |values|
      invariant 0 <= i <= |values|
      invariant Owing(d, live, Elements(param[i..]), raw) && d.faults == old(d.faults)
    {
      var w := param[i];
      ghost var before := View(d, live);
      ghost var backed := before.held - Elements(param[i..]);
      assert Elements(param[i..]) == Elements(param[i + 1..]) + {w};
      assert backed[w := values[i]] == before.held - Elements(param[i + 1..]);
      if values[i] != NULL {
        OwnedIsAlive(d.count, backed, raw, values[i]);
        RetainKeeps(before, backed, raw, w, values[i]);
        err := d.Retain(w.handle);
        assert View(d, live) == RetainNonNull(before, values[i]);
        if err != CL_SUCCESS {
          return err;
        }
      } else {
        NullIsFree(d.count, backed, raw, w);
      }
      i := i + 1;
    }
    assert View(d, live).held - Elements(param[i..]) == View(d, live).held;
    return CL_SUCCESS;
  }

  /**
   The overload for a vector of wrappers.  Between the two loops the new elements
   hold handles no reference was taken for; at the end the books balance again,
   also when old and new elements share handles.
   */
  method GetInfoVector(d: Driver, ghost live: set<Wrapper>, ghost raw: multiset<Handle>,
                       param: seq<Wrapper>, answer: Result<seq<Handle>, int>)
    returns (err: int, result: seq<Wrapper>, ghost live': set<Wrapper>)
    requires Elements(param) <= live && Distinct(param) && Balanced(View(d, live), raw)
    requires answer.Err? ==> answer.error != CL_SUCCESS
    requires answer.Ok? ==> KeptAlive(answer.value, raw)
    modifies d, Elements(param)
    ensures match answer
            case Err(e) => err == e && result == param && live' == live && View(d, live') == old(View(d, live))
            case Ok(values) =>
              && err == CL_SUCCESS && Distinct(result)
              && |result| == |values| && (forall i :: 0 <= i < |result| ==> result[i].handle == values[i])
              && live' == live - Elements(param) + Elements(result)
              && (forall w :: w in live && w !in param ==> w.handle == old(w.handle))
    ensures Balanced(View(d, live'), raw) && d.faults == old(d.faults)
  {
    if answer.Err? {
      return answer.error, param, live;
    }
    result, live' := AssignRange(d, live, raw, param, answer.value);
    err := RetainAll(d, live', raw, result, answer.value);
  }
}
