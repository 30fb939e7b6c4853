/**
 The ownership discipline of `cl::detail::Wrapper<T>`: what each special member
 function does to the wrapper's handle and to the driver's reference counters,
 and the conservation law that makes it safe.

 A `World<W>` holds the driver's counters and the handle of every live wrapper,
 wrappers being named by values of `W`.  References a program holds outside any
 wrapper (fresh results of `clCreate*`, references owned by other driver
 objects) are kept in a ledger beside the world: no code can see them.
 */
module RefCounting {
  import opened OpenCL

  /** `faults` counts retains and releases of handles that are not alive. */
  datatype World<!W(==)> = World(count: map<Handle, nat>, held: map<W, Handle>, faults: nat)

  datatype Op<W> =
    | Default(w: W)                   // Wrapper()
    | Adopt(w: W, h: Handle)          // Wrapper(const cl_type&)
    | Copy(w: W, from: W)             // Wrapper(const Wrapper&)
    | Move(w: W, from: W)             // Wrapper(Wrapper&&)
    | CopyAssign(w: W, from: W)       // operator=(const Wrapper&)
    | MoveAssign(w: W, from: W)       // operator=(Wrapper&&)
    | RawAssign(w: W, h: Handle)      // operator=(const cl_type&)
    | Destroy(w: W)                   // ~Wrapper()
    | Info(w: W, h: Handle)           // getInfoHelper answering `h`
    | Create(h: Handle)               // the driver hands out a new object
    | RawRetain(h: Handle)            // the program's own clRetain*
    | RawRelease(h: Handle)           // the program's own clRelease*

  // ---------------------------------------------------------------- the code

  function Retain<W>(s: World<W>, h: Handle): World<W> {
    if h in s.count then s.(count := s.count[h := s.count[h] + 1])
    else s.(faults := s.faults + 1)
  }

  /** Releasing the last reference destroys the object. */
  function Release<W>(s: World<W>, h: Handle): World<W> {
    if h !in s.count then s.(faults := s.faults + 1)
    else if s.count[h] > 1 then s.(count := s.count[h := s.count[h] - 1])
    else s.(count := s.count - {h})
  }

  function RetainNonNull<W>(s: World<W>, h: Handle): World<W> {
    if h != NULL then Retain(s, h) else s
  }

  function ReleaseNonNull<W>(s: World<W>, h: Handle): World<W> {
    if h != NULL then Release(s, h) else s
  }

  function Put<W>(s: World<W>, w: W, h: Handle): World<W> {
    s.(held := s.held[w := h])
  }

  function Take<W>(s: World<W>, w: W): Handle {
    if w in s.held then s.held[w] else NULL
  }

  /** Every assignment releases what it overwrites before it retains anything. */
  function Apply<W>(s: World<W>, op: Op<W>): World<W> {
    match op
    case Default(w) => Put(s, w, NULL)
    case Adopt(w, h) => Put(s, w, h)
    case Copy(w, from) => RetainNonNull(Put(s, w, Take(s, from)), Take(s, from))
    case Move(w, from) => Put(Put(s, w, Take(s, from)), from, NULL)
    case CopyAssign(w, from) =>
      if w == from then s
      else
        var h := Take(s, from);
        RetainNonNull(Put(ReleaseNonNull(s, Take(s, w)), w, h), h)
    case MoveAssign(w, from) =>
      if w == from then s
      else Put(Put(ReleaseNonNull(s, Take(s, w)), w, Take(s, from)), from, NULL)
    case RawAssign(w, h) => Put(ReleaseNonNull(s, Take(s, w)), w, h)
    case Destroy(w) =>
      var s' := ReleaseNonNull(s, Take(s, w));
      s'.(held := s'.held - {w})
    case Info(w, h) => RetainNonNull(Put(ReleaseNonNull(s, Take(s, w)), w, h), h)
    case Create(h) => s.(count := s.count[h := 1])
    case RawRetain(h) => Retain(s, h)
    case RawRelease(h) => Release(s, h)
  }

  // ------------------------------------------------------- what the caller owes

  /** References outside wrappers, after `op`. */
  function Ledger<W>(raw: multiset<Handle>, op: Op<W>): multiset<Handle> {
    match op
    case Adopt(_, h) => raw - multiset{h}
    case RawAssign(_, h) => raw - multiset{h}
    case Create(h) => raw + multiset{h}
    case RawRetain(h) => raw + multiset{h}
    case RawRelease(h) => raw - multiset{h}
    case _ => raw
  }

  /**
   Constructors run on new wrappers, everything else on live ones; a handle is
   adopted only by someone who owns a reference to give away; the driver creates
   handles that are not in use, and whatever it reports in an information query
   is kept alive by some owner of its own.
   */
  predicate Allowed<W>(s: World<W>, raw: multiset<Handle>, op: Op<W>) {
    match op
    case Default(w) => w !in s.held
    case Adopt(w, h) => w !in s.held && (h == NULL || h in raw)
    case Copy(w, from) => w !in s.held && from in s.held
    case Move(w, from) => w !in s.held && from in s.held
    case CopyAssign(w, from) => w in s.held && from in s.held
    case MoveAssign(w, from) => w in s.held && from in s.held
    case RawAssign(w, h) => w in s.held && (h == NULL || h in raw)
    case Destroy(w) => w in s.held
    case Info(w, h) => w in s.held && (h == NULL || h in raw)
    case Create(h) => h != NULL && h !in s.count
    case RawRetain(h) => h in s.count
    case RawRelease(h) => h != NULL && h in raw
  }

  // ------------------------------------------------------------ what wrappers hold

  /** The same operation on plain handle variables, without any counting. */
  function Plain<W>(held: map<W, Handle>, op: Op<W>): map<W, Handle> {
    match op
    case Default(w) => held[w := NULL]
    case Adopt(w, h) => held[w := h]
    case RawAssign(w, h) => held[w := h]
    case Info(w, h) => held[w := h]
    case Copy(w, from) => if from in held then held[w := held[from]] else held
    case CopyAssign(w, from) => if from in held then held[w := held[from]] else held
    case Move(w, from) => if from in held then held[w := held[from]][from := NULL] else held
    case MoveAssign(w, from) => if from in held && w != from then held[w := held[from]][from := NULL] else held
    case Destroy(w) => held - {w}
    case Create(_) | RawRetain(_) | RawRelease(_) => held
  }

  /** Wrappers hold what plain variables would: copies agree, moves transfer, no other wrapper changes. */
  lemma {:induction false} ApplyHolds<W>(s: World<W>, raw: multiset<Handle>, op: Op<W>)
    requires Allowed(s, raw, op)
    ensures Apply(s, op).held == Plain(s.held, op)
  {
  }

  /** A copy holds what its source holds, which keeps it; a move leaves its source empty; others are untouched. */
  lemma {:induction false} CopiesAndMoves<W>(s: World<W>, raw: multiset<Handle>, op: Op<W>)
    requires Allowed(s, raw, op) && (op.Copy? || op.CopyAssign? || op.Move? || op.MoveAssign?)
    ensures var s' := Apply(s, op);
            && op.w in s'.held && op.from in s'.held && s'.held[op.w] == s.held[op.from]
            && (op.Copy? || op.CopyAssign? || op.w == op.from ==> s'.held[op.from] == s.held[op.from])
            && (op.Move? || (op.MoveAssign? && op.w != op.from) ==> s'.held[op.from] == NULL)
            && (forall v :: v in s.held && v != op.w && v != op.from ==> v in s'.held && s'.held[v] == s.held[v])
            && s'.held.Keys == s.held.Keys + {op.w}
  {
    ApplyHolds(s, raw, op);
  }

  /** The driver notices every call on a dead handle. */
  lemma {:induction false} DeadCallsAreFaults<W>(s: World<W>, h: Handle)
    ensures Retain(s, h).faults == s.faults + (if h in s.count then 0 else 1)
    ensures Release(s, h).faults == s.faults + (if h in s.count then 0 else 1)
  {
  }

  // ---------------------------------------------------------- the conservation law

  function Count(count: map<Handle, nat>, h: Handle): nat {
    if h in count then count[h] else 0
  }

  ghost function Holders<W>(held: map<W, Handle>, h: Handle): nat {
    |set w | w in held && held[w] == h|
  }

  /**
   The counter of every object equals the number of wrappers in `backed` that
   hold it plus the references outside wrappers.  During an information query
   some wrappers hold handles they have not paid for yet; those are left out of
   `backed`.
   */
  ghost predicate Backed<W>(count: map<Handle, nat>, backed: map<W, Handle>, raw: multiset<Handle>) {
    && NULL !in count
    && (forall h :: h in count ==> count[h] > 0)
    && (forall h :: h != NULL ==> Count(count, h) == Holders(backed, h) + raw[h])
  }

  ghost predicate Balanced<W>(s: World<W>, raw: multiset<Handle>) {
    Backed(s.count, s.held, raw)
  }

  lemma HoldersAdd<W>(held: map<W, Handle>, w: W, x: Handle, h: Handle)
    requires w !in held
    ensures Holders(held[w := x], h) == Holders(held, h) + (if x == h then 1 else 0)
  {
    var before := set v | v in held && held[v] == h;
    var held' := held[w := x];
    var after := set v | v in held' && held'[v] == h;
    assert after == (if x == h then before + {w} else before);
  }

  lemma HoldersRemove<W>(held: map<W, Handle>, w: W, h: Handle)
    requires w in held
    ensures Holders(held, h) == Holders(held - {w}, h) + (if held[w] == h then 1 else 0)
  {
    assert (held - {w})[w := held[w]] == held;
    HoldersAdd(held - {w}, w, held[w], h);
  }

  /** A backed wrapper lets go of its handle: the handle was alive. */
  lemma DropKeeps<W>(s: World<W>, backed: map<W, Handle>, raw: multiset<Handle>, w: W)
    requires Backed(s.count, backed, raw) && w in backed && Take(s, w) == backed[w]
    ensures var s' := ReleaseNonNull(s, Take(s, w));
            Backed(s'.count, backed - {w}, raw) && s'.faults == s.faults && s'.held == s.held
  {
    var x := backed[w];
    forall h ensures Holders(backed, h) == Holders(backed - {w}, h) + (if x == h then 1 else 0) {
      HoldersRemove(backed, w, h);
    }
    assert x != NULL ==> Count(s.count, x) == Holders(backed, x) + raw[x] > 0;
  }

  /** A wrapper takes its own reference to a live handle. */
  lemma RetainKeeps<W>(s: World<W>, backed: map<W, Handle>, raw: multiset<Handle>, w: W, h: Handle)
    requires Backed(s.count, backed, raw) && w !in backed && (h == NULL || h in s.count)
    ensures var s' := RetainNonNull(s, h);
            Backed(s'.count, backed[w := h], raw) && s'.faults == s.faults && s'.held == s.held
  {
    forall k ensures Holders(backed[w := h], k) == Holders(backed, k) + (if h == k then 1 else 0) {
      HoldersAdd(backed, w, h, k);
    }
  }

  /** A wrapper takes over a reference that was outside wrappers. */
  lemma AdoptKeeps<W>(count: map<Handle, nat>, backed: map<W, Handle>, raw: multiset<Handle>, w: W, h: Handle)
    requires Backed(count, backed, raw) && w !in backed && (h == NULL || h in raw)
    ensures Backed(count, backed[w := h], raw - multiset{h})
  {
    forall k ensures Holders(backed[w := h], k) == Holders(backed, k) + (if h == k then 1 else 0) {
      HoldersAdd(backed, w, h, k);
    }
  }

  lemma NullIsFree<W>(count: map<Handle, nat>, backed: map<W, Handle>, raw: multiset<Handle>, w: W)
    requires Backed(count, backed, raw) && w !in backed
    ensures Backed(count, backed[w := NULL], raw)
  {
    forall k ensures Holders(backed[w := NULL], k) == Holders(backed, k) + (if NULL == k then 1 else 0) {
      HoldersAdd(backed, w, NULL, k);
    }
  }

  /** A handle with an owner, wrapper or not, is alive. */
  lemma OwnedIsAlive<W>(count: map<Handle, nat>, backed: map<W, Handle>, raw: multiset<Handle>, h: Handle)
    requires Backed(count, backed, raw) && h != NULL
    ensures h in count <==> (h in raw || exists w :: w in backed && backed[w] == h)
  {
    var holders := set w | w in backed && backed[w] == h;
    if h in count && h !in raw {
      assert Count(count, h) == |holders|;
      assert holders != {};
      var w :| w in holders;
    }
    if w :| w in backed && backed[w] == h {
      assert w in holders;
      assert Count(count, h) >= |holders| > 0;
    }
  }

  /** The reference `from` holds changes hands; the new holder held nothing backed. */
  lemma MoveKeeps<W>(count: map<Handle, nat>, backed: map<W, Handle>, raw: multiset<Handle>, w: W, from: W)
    requires Backed(count, backed, raw) && from in backed && w !in backed
    ensures Backed(count, backed[w := backed[from]][from := NULL], raw)
  {
    var x := backed[from];
    var rest := backed - {from};
    forall k
      ensures k != NULL ==> Holders(backed[w := x][from := NULL], k) == Holders(backed, k)
    {
      HoldersRemove(backed, from, k);
      HoldersAdd(rest, w, x, k);
      HoldersAdd(rest[w := x], from, NULL, k);
      assert rest[w := x][from := NULL] == backed[w := x][from := NULL];
    }
  }

  /** What every operation keeps: the balance, and no call on a dead handle. */
  ghost predicate Kept<W>(s: World<W>, s': World<W>, raw': multiset<Handle>) {
    Balanced(s', raw') && s'.faults == s.faults
  }

  lemma ConstructKeeps<W>(s: World<W>, raw: multiset<Handle>, op: Op<W>)
    requires Balanced(s, raw) && Allowed(s, raw, op)
    requires op.Default? || op.Adopt? || op.Copy? || op.Move?
    ensures Kept(s, Apply(s, op), Ledger(raw, op))
  {
    match op
    case Default(w) => NullIsFree(s.count, s.held, raw, w);
    case Adopt(w, h) => AdoptKeeps(s.count, s.held, raw, w, h);
    case Copy(w, from) =>
      var h := Take(s, from);
      if h != NULL { OwnedIsAlive(s.count, s.held, raw, h); }
      RetainKeeps(Put(s, w, h), s.held, raw, w, h);
    case Move(w, from) => MoveKeeps(s.count, s.held, raw, w, from);
  }

  /** Release what `w` held, then take a reference of one's own to `h`. */
  lemma ReplaceKeeps<W>(s: World<W>, raw: multiset<Handle>, w: W, h: Handle)
    requires Balanced(s, raw) && w in s.held
    requires h == NULL || h in raw || exists v :: v in s.held && v != w && s.held[v] == h
    ensures Kept(s, RetainNonNull(Put(ReleaseNonNull(s, Take(s, w)), w, h), h), raw)
  {
    var dropped := ReleaseNonNull(s, Take(s, w));
    var rest := s.held - {w};
    DropKeeps(s, s.held, raw, w);
    if h != NULL {
      if h !in raw {
        var v :| v in s.held && v != w && s.held[v] == h;
        assert v in rest && rest[v] == h;
      }
      OwnedIsAlive(dropped.count, rest, raw, h);
    }
    RetainKeeps(Put(dropped, w, h), rest, raw, w, h);
    assert rest[w := h] == s.held[w := h];
  }

  lemma MoveAssignKeeps<W>(s: World<W>, raw: multiset<Handle>, w: W, from: W)
    requires Balanced(s, raw) && w in s.held && from in s.held && w != from
    ensures Kept(s, Apply(s, MoveAssign(w, from)), raw)
  {
    var dropped := ReleaseNonNull(s, Take(s, w));
    var rest := s.held - {w};
    DropKeeps(s, s.held, raw, w);
    MoveKeeps(dropped.count, rest, raw, w, from);
    assert rest[w := rest[from]][from := NULL] == s.held[w := s.held[from]][from := NULL];
  }

  lemma RawAssignKeeps<W>(s: World<W>, raw: multiset<Handle>, w: W, h: Handle)
    requires Balanced(s, raw) && w in s.held && (h == NULL || h in raw)
    ensures Kept(s, Apply(s, RawAssign(w, h)), raw - multiset{h})
  {
    var rest := s.held - {w};
    DropKeeps(s, s.held, raw, w);
    AdoptKeeps(ReleaseNonNull(s, Take(s, w)).count, rest, raw, w, h);
    assert rest[w := h] == s.held[w := h];
  }

  /** One more or one less reference outside wrappers. */
  lemma RawKeeps<W>(s: World<W>, raw: multiset<Handle>, op: Op<W>)
    requires Balanced(s, raw) && Allowed(s, raw, op)
    requires op.Create? || op.RawRetain? || op.RawRelease?
    ensures Kept(s, Apply(s, op), Ledger(raw, op))
  {
    var h, s', raw' := op.h, Apply(s, op), Ledger(raw, op);
    assert Count(s.count, h) == Holders(s.held, h) + raw[h];
    forall k | k != NULL
      ensures Count(s'.count, k) == Holders(s'.held, k) + raw'[k]
    {
      assert Count(s.count, k) == Holders(s.held, k) + raw[k];
    }
  }

  lemma ApplyKeeps<W>(s: World<W>, raw: multiset<Handle>, op: Op<W>)
    requires Balanced(s, raw) && Allowed(s, raw, op)
    ensures Kept(s, Apply(s, op), Ledger(raw, op))
  {
    match op
    case Default(_) | Adopt(_, _) | Copy(_, _) | Move(_, _) => ConstructKeeps(s, raw, op);
    case Create(_) | RawRetain(_) | RawRelease(_) => RawKeeps(s, raw, op);
    case CopyAssign(w, from) => if w != from { ReplaceKeeps(s, raw, w, s.held[from]); }
    case MoveAssign(w, from) => if w != from { MoveAssignKeeps(s, raw, w, from); }
    case RawAssign(w, h) => RawAssignKeeps(s, raw, w, h);
    case Info(w, h) => ReplaceKeeps(s, raw, w, h);
    case Destroy(w) => DropKeeps(s, s.held, raw, w);
  }

  // ------------------------------------------------------------------- whole runs

  const EMPTY_LEDGER: multiset<Handle> := multiset{}

  function Initial<W>(): World<W> { World(map[], map[], 0) }

  function Exec<W>(s: World<W>, ops: seq<Op<W>>): World<W>
    decreases |ops|
  {
    if ops == [] then s else Exec(Apply(s, ops[0]), ops[1..])
  }

  function ExecLedger<W>(raw: multiset<Handle>, ops: seq<Op<W>>): multiset<Handle>
    decreases |ops|
  {
    if ops == [] then raw else ExecLedger(Ledger(raw, ops[0]), ops[1..])
  }

  function ExecPlain<W>(held: map<W, Handle>, ops: seq<Op<W>>): map<W, Handle>
    decreases |ops|
  {
    if ops == [] then held else ExecPlain(Plain(held, ops[0]), ops[1..])
  }

  predicate AllAllowed<W>(s: World<W>, raw: multiset<Handle>, ops: seq<Op<W>>)
    decreases |ops|
  {
    ops == [] ||
    (Allowed(s, raw, ops[0]) && AllAllowed(Apply(s, ops[0]), Ledger(raw, ops[0]), ops[1..]))
  }

  lemma {:induction false} ExecKeeps<W>(s: World<W>, raw: multiset<Handle>, ops: seq<Op<W>>)
    requires Balanced(s, raw) && AllAllowed(s, raw, ops)
    ensures Kept(s, Exec(s, ops), ExecLedger(raw, ops))
    ensures Exec(s, ops).held == ExecPlain(s.held, ops)
    decreases |ops|
  {
    if ops != [] {
      ApplyKeeps(s, raw, ops[0]);
      ApplyHolds(s, raw, ops[0]);
      ExecKeeps(Apply(s, ops[0]), Ledger(raw, ops[0]), ops[1..]);
    }
  }

  /**
   Over every sequence of operations: wrappers hold what plain variables would,
   counters equal holders, no retain or release reaches a dead object, an object is
   alive exactly while somebody owns it, and nothing is left when nobody does.
   */
  lemma Conservation<W>(ops: seq<Op<W>>)
    requires AllAllowed(Initial<W>(), EMPTY_LEDGER, ops)
    ensures var s := Exec(Initial<W>(), ops); var raw := ExecLedger(EMPTY_LEDGER, ops);
            && s.held == ExecPlain(map[], ops) && s.faults == 0
            && (forall h :: h != NULL ==> Count(s.count, h) == Holders(s.held, h) + raw[h])
            && (forall h :: h != NULL ==>
                  (h in s.count <==> (h in raw || exists w :: w in s.held && s.held[w] == h)))
            && (s.held == map[] && raw == EMPTY_LEDGER ==> s.count == map[])
  {
    var s := Exec(Initial<W>(), ops);
    var raw := ExecLedger(EMPTY_LEDGER, ops);
    ExecKeeps(Initial<W>(), EMPTY_LEDGER, ops);
    forall h | h != NULL
      ensures h in s.count <==> (h in raw || exists w :: w in s.held && s.held[w] == h)
    {
      OwnedIsAlive(s.count, s.held, raw, h);
    }
    if s.held == map[] && raw == EMPTY_LEDGER {
      assert forall h :: h !in s.count;
    }
  }
}
