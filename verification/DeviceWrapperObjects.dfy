/**
 `cl::detail::Wrapper<cl_device_id>` as it is written, with its cached
 `referenceCountable_` flag; each member function is proved to perform the
 operation of the same name of module `DeviceRefCounting`.
 */
module DeviceWrapperObjects {
  import opened OpenCL
  import opened RefCounting
  import opened DeviceRefCounting
  import opened WrapperObjects

  ghost function DeviceView(d: Driver, live: set<DeviceWrapper>): DeviceWorld<DeviceWrapper>
    reads d, live
  {
    DeviceWorld(d.count, map w | w in live :: Slot(w.device, w.referenceCountable), d.faults)
  }

  /** The driver counts references to sub-devices only. */
  method ClRetainDevice(d: Driver, devices: Devices, ghost live: set<DeviceWrapper>, h: Handle) returns (err: int)
    modifies d
    ensures DeviceView(d, live) == RetainDevice(devices, old(DeviceView(d, live)), h)
    ensures err == CL_SUCCESS <==> !devices.isSubDevice(h) || h in old(d.count)
  {
    if devices.isSubDevice(h) {
      err := d.Retain(h);
    } else {
      err := CL_SUCCESS;
    }
  }

  method ClReleaseDevice(d: Driver, devices: Devices, ghost live: set<DeviceWrapper>, h: Handle) returns (err: int)
    modifies d
    ensures DeviceView(d, live) == ReleaseDevice(devices, old(DeviceView(d, live)), h)
    ensures err == CL_SUCCESS <==> !devices.isSubDevice(h) || h in old(d.count)
  {
    if devices.isSubDevice(h) {
      err := d.Release(h);
    } else {
      err := CL_SUCCESS;
    }
  }

  class DeviceWrapper {
    var device: Handle
    var referenceCountable: bool

    constructor Default(d: Driver, devices: Devices, ghost live: set<DeviceWrapper>)
      ensures device == NULL && !referenceCountable
      ensures DeviceView(d, live + {this}) == ApplyDevice(devices, old(DeviceView(d, live)), Op.Default(this))
    {
      device, referenceCountable := NULL, false;
    }

    constructor Adopt(d: Driver, devices: Devices, ghost live: set<DeviceWrapper>, h: Handle)
      ensures device == h && referenceCountable == IsReferenceCountable(devices, h)
      ensures DeviceView(d, live + {this}) == ApplyDevice(devices, old(DeviceView(d, live)), Op.Adopt(this, h))
    {
      device := h;
      referenceCountable := IsReferenceCountable(devices, h);
    }

    constructor Copy(d: Driver, devices: Devices, ghost live: set<DeviceWrapper>, rhs: DeviceWrapper)
      requires rhs in live
      modifies d
      ensures device == old(rhs.device) == rhs.device
      ensures DeviceView(d, live + {this}) == ApplyDevice(devices, old(DeviceView(d, live)), Op.Copy(this, rhs))
    {
      device := rhs.device;
      referenceCountable := IsReferenceCountable(devices, rhs.device);
      new;
      RetainHeld(d, devices, live + {this});
    }

    constructor Move(d: Driver, devices: Devices, ghost live: set<DeviceWrapper>, rhs: DeviceWrapper)
      requires rhs in live
      modifies rhs
      ensures device == old(rhs.device) && rhs.device == NULL
      ensures DeviceView(d, live + {this}) == ApplyDevice(devices, old(DeviceView(d, live)), Op.Move(this, rhs))
    {
      device, referenceCountable := rhs.device, rhs.referenceCountable;
      new;
      rhs.device, rhs.referenceCountable := NULL, false;
    }

    /** Retains the held device, if there is one and the flag allows it. */
    method RetainHeld(d: Driver, devices: Devices, ghost live: set<DeviceWrapper>)
      modifies d
      ensures DeviceView(d, live) == RetainSlot(devices, old(DeviceView(d, live)), Slot(device, referenceCountable))
    {
      if device != NULL {
        if referenceCountable {
          var _ := ClRetainDevice(d, devices, live, device);
        }
      }
    }

    /** Releases the held device, if there is one and the flag allows it. */
    method ReleaseHeld(d: Driver, devices: Devices, ghost live: set<DeviceWrapper>)
      modifies d
      ensures DeviceView(d, live) == ReleaseSlot(devices, old(DeviceView(d, live)), Slot(device, referenceCountable))
    {
      if device != NULL {
        if referenceCountable {
          var _ := ClReleaseDevice(d, devices, live, device);
        }
      }
    }

    method Destroy(d: Driver, devices: Devices, ghost live: set<DeviceWrapper>)
      requires this in live
      modifies d
      ensures DeviceView(d, live - {this}) == ApplyDevice(devices, old(DeviceView(d, live)), Op.Destroy(this))
    {
      ReleaseHeld(d, devices, live);
    }

    method CopyAssign(d: Driver, devices: Devices, ghost live: set<DeviceWrapper>, rhs: DeviceWrapper)
      requires this in live && rhs in live
      modifies this, d
      ensures device == old(rhs.device) == rhs.device
      ensures DeviceView(d, live) == ApplyDevice(devices, old(DeviceView(d, live)), Op.CopyAssign(this, rhs))
    {
      if this != rhs {
        ReleaseHeld(d, devices, live);
        device := rhs.device;
        referenceCountable := rhs.referenceCountable;
        RetainHeld(d, devices, live);
      }
    }

    method MoveAssign(d: Driver, devices: Devices, ghost live: set<DeviceWrapper>, rhs: DeviceWrapper)
      requires this in live && rhs in live
      modifies this, rhs, d
      ensures device == old(rhs.device) && (rhs != this ==> rhs.device == NULL)
      ensures DeviceView(d, live) == ApplyDevice(devices, old(DeviceView(d, live)), Op.MoveAssign(this, rhs))
    {
      if this != rhs {
        ReleaseHeld(d, devices, live);
        device := rhs.device;
        referenceCountable := rhs.referenceCountable;
        rhs.device := NULL;
        rhs.referenceCountable := false;
      }
    }

    method RawAssign(d: Driver, devices: Devices, ghost live: set<DeviceWrapper>, h: Handle)
      requires this in live
      modifies this, d
      ensures device == h && referenceCountable == IsReferenceCountable(devices, h)
      ensures DeviceView(d, live) == ApplyDevice(devices, old(DeviceView(d, live)), Op.RawAssign(this, h))
    {
      ReleaseHeld(d, devices, live);
      device := h;
      referenceCountable := IsReferenceCountable(devices, device);
    }
  }
}
