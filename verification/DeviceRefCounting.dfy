/**
 The specialisation `Wrapper<cl_device_id>`.  Devices may be retained and released
 from OpenCL 1.2 on (section 4.3 of the OpenCL 1.2 specification), so each wrapper
 caches whether its device may.  The driver counts references to sub-devices;
 for root devices, which `clGetDeviceIDs` hands out without a reference, both
 calls succeed and have no effect.  Forgetting the cached flags and the devices
 without a counter turns every operation into the one of an ordinary wrapper;
 that is how the conservation law carries over.
 */
module DeviceRefCounting {
  import opened OpenCL
  import opened RefCounting
  import Version

  /**
   What the platform says about its devices: the packed platform version, as
   `getDevicePlatformVersion` reports it, and which devices are sub-devices.
   */
  datatype Devices = Devices(version: Handle -> nat, isSubDevice: Handle -> bool)

  predicate IsReferenceCountable(devices: Devices, h: Handle) {
    h != NULL && Version.AboveOneOne(devices.version(h))
  }

  /** The devices with a counter: root devices have none, whatever their version. */
  predicate Counted(devices: Devices, h: Handle) {
    IsReferenceCountable(devices, h) && devices.isSubDevice(h)
  }

  datatype Slot = Slot(device: Handle, countable: bool)

  datatype DeviceWorld<!W(==)> = DeviceWorld(count: map<Handle, nat>, held: map<W, Slot>, faults: nat)

  const EMPTY := Slot(NULL, false)

  // ---------------------------------------------------------------- the code

  function Counters<W>(s: DeviceWorld<W>): World<W> { World(s.count, map[], s.faults) }

  function WithCounters<W>(s: DeviceWorld<W>, c: World<W>): DeviceWorld<W> {
    s.(count := c.count, faults := c.faults)
  }

  /** `clRetainDevice`. */
  function RetainDevice<W>(devices: Devices, s: DeviceWorld<W>, h: Handle): DeviceWorld<W> {
    if devices.isSubDevice(h) then WithCounters(s, Retain(Counters(s), h)) else s
  }

  /** `clReleaseDevice`. */
  function ReleaseDevice<W>(devices: Devices, s: DeviceWorld<W>, h: Handle): DeviceWorld<W> {
    if devices.isSubDevice(h) then WithCounters(s, Release(Counters(s), h)) else s
  }

  /** A wrapper retains what it holds, if its cached flag allows that. */
  function RetainSlot<W>(devices: Devices, s: DeviceWorld<W>, x: Slot): DeviceWorld<W> {
    if x.device != NULL && x.countable then RetainDevice(devices, s, x.device) else s
  }

  function ReleaseSlot<W>(devices: Devices, s: DeviceWorld<W>, x: Slot): DeviceWorld<W> {
    if x.device != NULL && x.countable then ReleaseDevice(devices, s, x.device) else s
  }

  function PutSlot<W>(s: DeviceWorld<W>, w: W, x: Slot): DeviceWorld<W> {
    s.(held := s.held[w := x])
  }

  function TakeSlot<W>(s: DeviceWorld<W>, w: W): Slot {
    if w in s.held then s.held[w] else EMPTY
  }

  function Fresh(devices: Devices, h: Handle): Slot {
    Slot(h, IsReferenceCountable(devices, h))
  }

  /** Copying recomputes the flag; moving and assigning from a wrapper copy it. */
  function ApplyDevice<W>(devices: Devices, s: DeviceWorld<W>, op: Op<W>): DeviceWorld<W> {
    match op
    case Default(w) => PutSlot(s, w, EMPTY)
    case Adopt(w, h) => PutSlot(s, w, Fresh(devices, h))
    case Copy(w, from) =>
      var x := Fresh(devices, TakeSlot(s, from).device);
      RetainSlot(devices, PutSlot(s, w, x), x)
    case Move(w, from) => PutSlot(PutSlot(s, w, TakeSlot(s, from)), from, EMPTY)
    case CopyAssign(w, from) =>
      if w == from then s
      else
        var x := TakeSlot(s, from);
        RetainSlot(devices, PutSlot(ReleaseSlot(devices, s, TakeSlot(s, w)), w, x), x)
    case MoveAssign(w, from) =>
      if w == from then s
      else PutSlot(PutSlot(ReleaseSlot(devices, s, TakeSlot(s, w)), w, TakeSlot(s, from)), from, EMPTY)
    case RawAssign(w, h) => PutSlot(ReleaseSlot(devices, s, TakeSlot(s, w)), w, Fresh(devices, h))
    case Destroy(w) =>
      var s' := ReleaseSlot(devices, s, TakeSlot(s, w));
      s'.(held := s'.held - {w})
    case Info(w, h) =>
      var x := Fresh(devices, h);
      RetainSlot(devices, PutSlot(ReleaseSlot(devices, s, TakeSlot(s, w)), w, x), x)
    case Create(h) => s.(count := s.count[h := 1])
    case RawRetain(h) => RetainDevice(devices, s, h)
    case RawRelease(h) => ReleaseDevice(devices, s, h)
  }

  // ------------------------------------------------------ refinement of ordinary wrappers

  predicate FlagsOk<W>(devices: Devices, s: DeviceWorld<W>) {
    forall w :: w in s.held ==> s.held[w].countable == IsReferenceCountable(devices, s.held[w].device)
  }

  function EraseHandle(devices: Devices, h: Handle): Handle {
    if Counted(devices, h) then h else NULL
  }

  function Erase<W>(devices: Devices, s: DeviceWorld<W>): World<W> {
    World(s.count, map w | w in s.held :: EraseHandle(devices, s.held[w].device), s.faults)
  }

  function EraseOp<W>(devices: Devices, op: Op<W>): Op<W> {
    match op
    case Adopt(w, h) => Adopt(w, EraseHandle(devices, h))
    case RawAssign(w, h) => RawAssign(w, EraseHandle(devices, h))
    case Info(w, h) => Info(w, EraseHandle(devices, h))
    case _ => op
  }

  /**
   The duties of an ordinary wrapper's caller, for the devices that are counted:
   any other device may be wrapped and reported without a reference.
   */
  predicate DeviceAllowed<W>(devices: Devices, s: DeviceWorld<W>, raw: multiset<Handle>, op: Op<W>) {
    && Allowed(Erase(devices, s), raw, EraseOp(devices, op))
    && (op.Create? || op.RawRetain? || op.RawRelease? ==> Counted(devices, op.h))
  }

  lemma ErasePut<W>(devices: Devices, s: DeviceWorld<W>, w: W, x: Slot)
    ensures Erase(devices, PutSlot(s, w, x)) == Put(Erase(devices, s), w, EraseHandle(devices, x.device))
  {
  }

  lemma EraseCounters<W>(devices: Devices, s: DeviceWorld<W>, x: Slot)
    requires x.countable == IsReferenceCountable(devices, x.device)
    ensures var e, h := Erase(devices, s), EraseHandle(devices, x.device);
            && Erase(devices, RetainSlot(devices, s, x)) == RetainNonNull(e, h)
            && Erase(devices, ReleaseSlot(devices, s, x)) == ReleaseNonNull(e, h)
  {
  }

  lemma EraseTake<W>(devices: Devices, s: DeviceWorld<W>, w: W)
    ensures Take(Erase(devices, s), w) == EraseHandle(devices, TakeSlot(s, w).device)
  {
  }

  /** The cached flag stays right, and the operation is the ordinary one on counted devices. */
  ghost predicate Refines<W>(devices: Devices, s: DeviceWorld<W>, op: Op<W>) {
    var s' := ApplyDevice(devices, s, op);
    FlagsOk(devices, s') && Erase(devices, s') == Apply(Erase(devices, s), EraseOp(devices, op))
  }

  lemma ConstructRefines<W>(devices: Devices, s: DeviceWorld<W>, op: Op<W>)
    requires FlagsOk(devices, s)
    requires op.Default? || op.Adopt? || op.Copy? || op.Move?
    ensures Refines(devices, s, op)
  {
    match op
    case Default(w) => ErasePut(devices, s, w, EMPTY);
    case Adopt(w, h) => ErasePut(devices, s, w, Fresh(devices, h));
    case Copy(w, from) =>
      var x := Fresh(devices, TakeSlot(s, from).device);
      EraseTake(devices, s, from);
      ErasePut(devices, s, w, x);
      EraseCounters(devices, PutSlot(s, w, x), x);
    case Move(w, from) =>
      EraseTake(devices, s, from);
      ErasePut(devices, s, w, TakeSlot(s, from));
      ErasePut(devices, PutSlot(s, w, TakeSlot(s, from)), from, EMPTY);
  }

  /** The common shape of the assignments: release, overwrite, maybe retain. */
  lemma ReplaceRefines<W>(devices: Devices, s: DeviceWorld<W>, w: W, x: Slot)
    requires FlagsOk(devices, s) && x.countable == IsReferenceCountable(devices, x.device)
    ensures var e, h := Erase(devices, s), EraseHandle(devices, x.device);
            var put := PutSlot(ReleaseSlot(devices, s, TakeSlot(s, w)), w, x);
            && Erase(devices, put) == Put(ReleaseNonNull(e, Take(e, w)), w, h)
            && Erase(devices, RetainSlot(devices, put, x)) == RetainNonNull(Put(ReleaseNonNull(e, Take(e, w)), w, h), h)
            && FlagsOk(devices, put) && FlagsOk(devices, RetainSlot(devices, put, x))
  {
    EraseTake(devices, s, w);
    EraseCounters(devices, s, TakeSlot(s, w));
    var dropped := ReleaseSlot(devices, s, TakeSlot(s, w));
    ErasePut(devices, dropped, w, x);
    EraseCounters(devices, PutSlot(dropped, w, x), x);
  }

  lemma AssignRefines<W>(devices: Devices, s: DeviceWorld<W>, op: Op<W>)
    requires FlagsOk(devices, s)
    requires op.CopyAssign? || op.MoveAssign? || op.RawAssign? || op.Info? || op.Destroy?
    ensures Refines(devices, s, op)
  {
    match op
    case CopyAssign(w, from) =>
      EraseTake(devices, s, from);
      ReplaceRefines(devices, s, w, TakeSlot(s, from));
    case MoveAssign(w, from) =>
      EraseTake(devices, s, from);
      ReplaceRefines(devices, s, w, TakeSlot(s, from));
      ErasePut(devices, PutSlot(ReleaseSlot(devices, s, TakeSlot(s, w)), w, TakeSlot(s, from)), from, EMPTY);
    case RawAssign(w, h) => ReplaceRefines(devices, s, w, Fresh(devices, h));
    case Info(w, h) => ReplaceRefines(devices, s, w, Fresh(devices, h));
    case Destroy(w) =>
      EraseTake(devices, s, w);
      EraseCounters(devices, s, TakeSlot(s, w));
      var s' := ApplyDevice(devices, s, op);
      assert Erase(devices, s').held == Erase(devices, s).held - {w};
  }

  function HeldDevices<W>(s: DeviceWorld<W>): map<W, Handle> { map w | w in s.held :: s.held[w].device }

  /** Device wrappers hold what plain variables would, counted or not. */
  lemma {:induction false} DevicesHeld<W>(devices: Devices, s: DeviceWorld<W>, raw: multiset<Handle>, op: Op<W>)
    requires DeviceAllowed(devices, s, raw, op)
    ensures HeldDevices(ApplyDevice(devices, s, op)) == Plain(HeldDevices(s), op)
  {
    match op
    case Default(w) => HeldPut(s, w, EMPTY);
    case Adopt(w, h) => HeldPut(s, w, Fresh(devices, h));
    case Copy(w, from) => HeldPut(s, w, Fresh(devices, TakeSlot(s, from).device));
    case Move(w, from) =>
      HeldPut(s, w, TakeSlot(s, from));
      HeldPut(PutSlot(s, w, TakeSlot(s, from)), from, EMPTY);
    case CopyAssign(w, from) => HeldReplaced(devices, s, w, TakeSlot(s, from));
    case MoveAssign(w, from) =>
      HeldReplaced(devices, s, w, TakeSlot(s, from));
      HeldPut(PutSlot(ReleaseSlot(devices, s, TakeSlot(s, w)), w, TakeSlot(s, from)), from, EMPTY);
    case RawAssign(w, h) => HeldReplaced(devices, s, w, Fresh(devices, h));
    case Info(w, h) => HeldReplaced(devices, s, w, Fresh(devices, h));
    case Destroy(w) =>
      var s' := ApplyDevice(devices, s, op);
      assert HeldDevices(s') == HeldDevices(s) - {w};
    case Create(_) | RawRetain(_) | RawRelease(_) =>
  }

  lemma {:induction false} HeldPut<W>(s: DeviceWorld<W>, w: W, x: Slot)
    ensures HeldDevices(PutSlot(s, w, x)) == HeldDevices(s)[w := x.device]
  {
  }

  lemma {:induction false} HeldReplaced<W>(devices: Devices, s: DeviceWorld<W>, w: W, x: Slot)
    ensures var put := PutSlot(ReleaseSlot(devices, s, TakeSlot(s, w)), w, x);
            && HeldDevices(put) == HeldDevices(s)[w := x.device]
            && HeldDevices(RetainSlot(devices, put, x)) == HeldDevices(s)[w := x.device]
  {
  }

  /** The packed version of the device's platform is that of `major.minor`. */
  predicate VersionIs(devices: Devices, h: Handle, major: nat, minor: nat) {
    minor < 0x10000 && devices.version(h) == Version.Pack(major, minor)
  }

  /** The test means: a device of a platform from OpenCL 1.2 on. */
  lemma CountableFromOneTwo(devices: Devices, h: Handle, major: nat, minor: nat)
    requires VersionIs(devices, h, major, minor)
    ensures IsReferenceCountable(devices, h) <==> h != NULL && (major > 1 || (major == 1 && minor >= 2))
  {
    Version.TestsMeanOneTwo(major, minor);
  }

  lemma ApplyRefines<W>(devices: Devices, s: DeviceWorld<W>, op: Op<W>)
    requires FlagsOk(devices, s)
    requires op.RawRetain? || op.RawRelease? ==> Counted(devices, op.h)
    ensures Refines(devices, s, op)
  {
    match op
    case Default(_) | Adopt(_, _) | Copy(_, _) | Move(_, _) => ConstructRefines(devices, s, op);
    case CopyAssign(_, _) | MoveAssign(_, _) | RawAssign(_, _) | Info(_, _) | Destroy(_) =>
      AssignRefines(devices, s, op);
    case Create(_) | RawRetain(_) | RawRelease(_) =>
  }

  // ------------------------------------------------------------------- whole runs

  function InitialDevices<W>(): DeviceWorld<W> { DeviceWorld(map[], map[], 0) }

  function ExecDevice<W>(devices: Devices, s: DeviceWorld<W>, ops: seq<Op<W>>): DeviceWorld<W>
    decreases |ops|
  {
    if ops == [] then s else ExecDevice(devices, ApplyDevice(devices, s, ops[0]), ops[1..])
  }

  function DeviceLedger<W>(devices: Devices, raw: multiset<Handle>, ops: seq<Op<W>>): multiset<Handle>
    decreases |ops|
  {
    if ops == [] then raw else DeviceLedger(devices, Ledger(raw, EraseOp(devices, ops[0])), ops[1..])
  }

  predicate AllDeviceAllowed<W>(devices: Devices, s: DeviceWorld<W>, raw: multiset<Handle>, ops: seq<Op<W>>)
    decreases |ops|
  {
    ops == [] ||
    (DeviceAllowed(devices, s, raw, ops[0]) &&
     AllDeviceAllowed(devices, ApplyDevice(devices, s, ops[0]), Ledger(raw, EraseOp(devices, ops[0])), ops[1..]))
  }

  /** The invariant of every reachable device world. */
  ghost predicate DeviceInv<W>(devices: Devices, s: DeviceWorld<W>, raw: multiset<Handle>) {
    && FlagsOk(devices, s)
    && Balanced(Erase(devices, s), raw)
    && (forall h :: h in s.count || h in raw ==> Counted(devices, h) || h == NULL)
    && s.faults == 0
  }

  lemma DeviceStep<W>(devices: Devices, s: DeviceWorld<W>, raw: multiset<Handle>, op: Op<W>)
    requires DeviceInv(devices, s, raw) && DeviceAllowed(devices, s, raw, op)
    ensures DeviceInv(devices, ApplyDevice(devices, s, op), Ledger(raw, EraseOp(devices, op)))
  {
    ApplyRefines(devices, s, op);
    ApplyKeeps(Erase(devices, s), raw, EraseOp(devices, op));
  }

  lemma {:induction false} ExecDeviceKeeps<W>(devices: Devices, s: DeviceWorld<W>, raw: multiset<Handle>,
                                              ops: seq<Op<W>>)
    requires DeviceInv(devices, s, raw) && AllDeviceAllowed(devices, s, raw, ops)
    ensures DeviceInv(devices, ExecDevice(devices, s, ops), DeviceLedger(devices, raw, ops))
    ensures HeldDevices(ExecDevice(devices, s, ops)) == ExecPlain(HeldDevices(s), ops)
    decreases |ops|
  {
    if ops != [] {
      DeviceStep(devices, s, raw, ops[0]);
      DevicesHeld(devices, s, raw, ops[0]);
      ExecDeviceKeeps(devices, ApplyDevice(devices, s, ops[0]), Ledger(raw, EraseOp(devices, ops[0])), ops[1..]);
    }
  }

  ghost function DeviceHolders<W>(held: map<W, Slot>, h: Handle): nat {
    |set w | w in held && held[w].device == h|
  }

  lemma HoldersErased<W>(devices: Devices, s: DeviceWorld<W>, h: Handle)
    requires Counted(devices, h)
    ensures Holders(Erase(devices, s).held, h) == DeviceHolders(s.held, h)
  {
    var held := Erase(devices, s).held;
    assert (set w | w in held && held[w] == h) == (set w | w in s.held && s.held[w].device == h);
  }

  /**
   Over every sequence of operations: wrappers hold what plain variables would, the
   cached flags are right, counted devices have one reference per wrapper and outside
   owner, other devices are never retained or released, and no call reaches a dead
   device.  Flags are set for platforms from 1.2 on, and counted are the sub-devices
   of those.
   */
  lemma DeviceConservation<W>(devices: Devices, ops: seq<Op<W>>)
    requires AllDeviceAllowed(devices, InitialDevices<W>(), EMPTY_LEDGER, ops)
    ensures var s := ExecDevice(devices, InitialDevices<W>(), ops);
            var raw := DeviceLedger(devices, EMPTY_LEDGER, ops);
            && HeldDevices(s) == ExecPlain(map[], ops) && FlagsOk(devices, s) && s.faults == 0
            && (forall h :: Counted(devices, h) ==> Count(s.count, h) == DeviceHolders(s.held, h) + raw[h])
            && (forall h :: !Counted(devices, h) ==> h !in s.count)
            && (forall h, major, minor | VersionIs(devices, h, major, minor) ::
                  var fromOneTwo := h != NULL && (major > 1 || (major == 1 && minor >= 2));
                  && (forall w :: w in s.held && s.held[w].device == h ==> s.held[w].countable == fromOneTwo)
                  && (if fromOneTwo && devices.isSubDevice(h)
                      then Count(s.count, h) == DeviceHolders(s.held, h) + raw[h]
                      else h !in s.count))
  {
    var s := ExecDevice(devices, InitialDevices<W>(), ops);
    var raw := DeviceLedger(devices, EMPTY_LEDGER, ops);
    assert Erase(devices, InitialDevices<W>()) == Initial<W>();
    assert HeldDevices(InitialDevices<W>()) == map[];
    ExecDeviceKeeps(devices, InitialDevices<W>(), EMPTY_LEDGER, ops);
    forall h | Counted(devices, h)
      ensures Count(s.count, h) == DeviceHolders(s.held, h) + raw[h]
    {
      HoldersErased(devices, s, h);
    }
    forall h, major, minor | VersionIs(devices, h, major, minor)
      ensures IsReferenceCountable(devices, h) <==> h != NULL && (major > 1 || (major == 1 && minor >= 2))
    {
      CountableFromOneTwo(devices, h, major, minor);
    }
  }
}
