/**
 * `soft_reset` and `set_feature`: resolving a location text against the
 * port table to the device to reset, or to the hub and port to send a
 * SET_FEATURE / CLEAR_FEATURE request to, and the effect on the hardware.
 */
module Control {
  import opened Wrappers
  import opened Location
  import opened HubProtocol
  import opened Topology

  /**
   * The device `soft_reset` resets: the device of the first entry at the
   * parsed location. An entry without a device (an empty hub port) is refused.
   */
  function ResetTarget(ports: seq<Port>, text: string): (r: Result<DeviceRecord>)
    ensures r.Failure? ==> r.error != NoParentEntry && r.error != HubNeverEnumerated && r.error != HardwareError
  {
    match ParseLocation(text)
    case Failure(e) => Failure(e)
    case Success(loc) =>
      match Find(ports, loc)
      case None => Failure(PortNotFound)
      case Some(i) => if ports[i].device.None? then Failure(NotEnumerated) else Success(ports[i].device.value)
  }

  /**
   * The hub and port `set_feature` addresses: the device of the first entry
   * at the parsed location without its last port, and that last port. The
   * port itself must have an entry; its hub must have an entry with a device.
   */
  function FeatureTarget(ports: seq<Port>, text: string): (r: Result<(DeviceRecord, nat)>)
    ensures r.Failure? ==> r.error != NotEnumerated && r.error != HardwareError
  {
    match ParseLocation(text)
    case Failure(e) => Failure(e)
    case Success(loc) => FeatureAt(ports, loc)
  }

  /** `set_feature` once the location has parsed. */
  function FeatureAt(ports: seq<Port>, loc: Location): (r: Result<(DeviceRecord, nat)>)
    requires |loc| >= 1
    ensures r.Failure? ==> r.error == PortNotFound || r.error == NoParentEntry || r.error == HubNeverEnumerated
  {
    if Find(ports, loc).None? then Failure(PortNotFound)
    else match Find(ports, loc[..|loc| - 1])
      case None => Failure(NoParentEntry)
      case Some(h) =>
        if ports[h].device.None? then Failure(HubNeverEnumerated)
        else Success((ports[h].device.value, loc[|loc| - 1]))
  }

  /** `soft_reset` after the listing: the device file reset, or why not. */
  function SoftResetEffect(hw: Hardware, ports: seq<Port>, text: string): (r: Result<string>)
  {
    match ResetTarget(ports, text)
    case Failure(e) => Failure(e)
    case Success(d) =>
      var path := DevicePath(d);
      if !hw.canOpen(path) || !hw.reset(path) then Failure(HardwareError) else Success(path)
  }

  /** `set_feature` after the listing: the hub device file and the request sent to it, or why not. */
  function SetFeatureEffect(hw: Hardware, ports: seq<Port>, text: string, feature: nat, enable: bool)
    : (r: Result<(string, ControlHeader)>)
  {
    match FeatureTarget(ports, text)
    case Failure(e) => Failure(e)
    case Success((hub, port)) =>
      var path := DevicePath(hub);
      var header := FeatureRequest(port, feature, enable);
      if !hw.canOpen(path) || hw.transfer(path, header).None? then Failure(HardwareError)
      else Success((path, header))
  }

  /** Whatever `soft_reset` resets is the device of the first entry at the location it was given. */
  lemma ResetTargetSpec(ports: seq<Port>, text: string)
    requires ResetTarget(ports, text).Success?
    ensures ParseLocation(text).Success?
    ensures var loc := ParseLocation(text).value;
      exists i :: 0 <= i < |ports| && ports[i].location == loc
        && ports[i].device == Some(ResetTarget(ports, text).value)
        && forall j :: 0 <= j < i ==> ports[j].location != loc
  {
    var loc := ParseLocation(text).value;
    FindFirst(ports, loc);
    var i := Find(ports, loc).value;
    assert ports[i].device == Some(ResetTarget(ports, text).value);
  }

  /** The printed address of the first entry at a location with ports resets that entry's device. */
  lemma ResetListed(ports: seq<Port>, i: nat)
    requires i < |ports| && |ports[i].location| >= 2 && ports[i].device.Some?
    requires Find(ports, ports[i].location) == Some(i)
    ensures ResetTarget(ports, FormatAddress(ports[i].location)) == Success(ports[i].device.value)
  {
    ParseLocationFormat(ports[i].location);
  }

  /** An empty hub port, whether or not a serial port has named it, cannot be soft reset. */
  lemma ResetEmptyPortRefused(ports: seq<Port>, loc: Location)
    requires |loc| >= 2 && Find(ports, loc).Some? && ports[Find(ports, loc).value].device.None?
    ensures ResetTarget(ports, FormatAddress(loc)) == Failure(NotEnumerated)
  {
    ParseLocationFormat(loc);
  }

  /** A location with no entry is refused with PortNotFound, and a root hub's bare bus number does not parse. */
  lemma ResetUnknownRefused(ports: seq<Port>, loc: Location, bus: nat)
    requires |loc| >= 2 && Find(ports, loc).None?
    ensures ResetTarget(ports, FormatAddress(loc)) == Failure(PortNotFound)
    ensures ResetTarget(ports, FormatAddress([bus])) == Failure(BadLocation)
  {
    ParseLocationFormat(loc);
    BusOnlyNotParsed(bus);
  }

  /**
   * `set_feature` talks to the device of the first entry at the parent
   * location, about the last port number of the location, and only when
   * that location has an entry of its own.
   */
  lemma FeatureAtSpec(ports: seq<Port>, loc: Location)
    requires |loc| >= 1 && FeatureAt(ports, loc).Success?
    ensures var (hub, port) := FeatureAt(ports, loc).value;
      Find(ports, loc).Some?
      && exists h :: (0 <= h < |ports| && ports[h].device == Some(hub)
                      && IsChildOf(loc, ports[h].location) && loc[|loc| - 1] == port
                      && forall j :: 0 <= j < h ==> ports[j].location != ports[h].location)
  {
    var parent := loc[..|loc| - 1];
    FindFirst(ports, parent);
    var h := Find(ports, parent).value;
    assert IsChildOf(loc, ports[h].location);
  }

  /** The printed address of a listed port whose hub is listed with its device addresses that hub and port. */
  lemma FeatureListed(ports: seq<Port>, loc: Location, h: nat)
    requires |loc| >= 2 && Find(ports, loc).Some?
    requires h < |ports| && IsChildOf(loc, ports[h].location) && ports[h].device.Some?
    requires Find(ports, ports[h].location) == Some(h)
    ensures FeatureTarget(ports, FormatAddress(loc)) == Success((ports[h].device.value, loc[|loc| - 1]))
  {
    ParseLocationFormat(loc);
    FeatureTargetParsed(ports, FormatAddress(loc), loc);
    FeatureAtChild(ports, loc, h);
  }

  lemma FeatureTargetParsed(ports: seq<Port>, text: string, loc: Location)
    requires ParseLocation(text) == Success(loc)
    ensures |loc| >= 1 && FeatureTarget(ports, text) == FeatureAt(ports, loc)
  {
  }

  lemma FeatureAtChild(ports: seq<Port>, loc: Location, h: nat)
    requires |loc| >= 1 && Find(ports, loc).Some?
    requires h < |ports| && IsChildOf(loc, ports[h].location) && ports[h].device.Some?
    requires Find(ports, ports[h].location) == Some(h)
    ensures FeatureAt(ports, loc) == Success((ports[h].device.value, loc[|loc| - 1]))
  {
    assert loc[..|loc| - 1] == ports[h].location;
  }

  /**
   * A request resolved to `(hub, port)` for `loc` and sent as `header` to
   * `path`: the hub is the first entry at the parent of `loc`, and the
   * request sets or clears the feature on the last port of `loc`.
   */
  lemma FeatureResolved(loc: Location, ports: seq<Port>, hub: DeviceRecord, port: nat,
                        path: string, header: ControlHeader, feature: nat, enable: bool) returns (h: nat)
    requires |loc| >= 1 && FeatureAt(ports, loc) == Success((hub, port))
    requires path == UsbFilename(hub.bus, hub.address)
    requires Interpret(header) == Some(if enable then SetPortFeature(port % 0x1_0000, feature % 0x1_0000)
                                       else ClearPortFeature(port % 0x1_0000, feature % 0x1_0000))
    ensures Find(ports, loc).Some?
    ensures h < |ports| && IsChildOf(loc, ports[h].location) && ports[h].device.Some?
    ensures path == UsbFilename(ports[h].device.value.bus, ports[h].device.value.address)
    ensures Interpret(header) == Some(if enable then SetPortFeature(loc[|loc| - 1] % 0x1_0000, feature % 0x1_0000)
                                      else ClearPortFeature(loc[|loc| - 1] % 0x1_0000, feature % 0x1_0000))
    ensures forall j :: 0 <= j < h ==> ports[j].location != ports[h].location
  {
    var parent := loc[..|loc| - 1];
    FindFirst(ports, parent);
    h := Find(ports, parent).value;
    assert IsChildOf(loc, ports[h].location);
  }

  /** `FeatureResolved` for a location text that parses to `loc`. */
  lemma FeatureEffectResolved(hw: Hardware, ports: seq<Port>, text: string, loc: Location, feature: nat, enable: bool)
    returns (h: nat)
    requires ParseLocation(text) == Success(loc) && SetFeatureEffect(hw, ports, text, feature, enable).Success?
    ensures |loc| >= 1 && Find(ports, loc).Some?
    ensures h < |ports| && IsChildOf(loc, ports[h].location) && ports[h].device.Some?
    ensures var sent := SetFeatureEffect(hw, ports, text, feature, enable).value;
      sent.0 == UsbFilename(ports[h].device.value.bus, ports[h].device.value.address)
      && Interpret(sent.1) == Some(if enable then SetPortFeature(loc[|loc| - 1] % 0x1_0000, feature % 0x1_0000)
                                   else ClearPortFeature(loc[|loc| - 1] % 0x1_0000, feature % 0x1_0000))
    ensures forall j :: 0 <= j < h ==> ports[j].location != ports[h].location
  {
    SetFeatureEffectSpec(hw, ports, text, feature, enable);
    FeatureTargetParsed(ports, text, loc);
    var (hub, port) := FeatureTarget(ports, text).value;
    var (path, header) := SetFeatureEffect(hw, ports, text, feature, enable).value;
    h := FeatureResolved(loc, ports, hub, port, path, header, feature, enable);
  }

  /** A port whose hub has no entry at all is refused, as the lookup of the hub finds nothing. */
  lemma FeatureOrphanRefused(ports: seq<Port>, loc: Location)
    requires |loc| >= 2 && Find(ports, loc).Some? && Find(ports, loc[..|loc| - 1]).None?
    ensures FeatureTarget(ports, FormatAddress(loc)) == Failure(NoParentEntry)
  {
    ParseLocationFormat(loc);
  }

  /** A soft reset that goes through resets the device file of the resolved device. */
  lemma SoftResetEffectSpec(hw: Hardware, ports: seq<Port>, text: string)
    ensures SoftResetEffect(hw, ports, text).Success? <==>
      ResetTarget(ports, text).Success?
      && hw.canOpen(DevicePath(ResetTarget(ports, text).value)) && hw.reset(DevicePath(ResetTarget(ports, text).value))
    ensures SoftResetEffect(hw, ports, text).Success? ==>
      var d := ResetTarget(ports, text).value;
      SoftResetEffect(hw, ports, text).value == UsbFilename(d.bus, d.address)
  {
  }

  /**
   * A feature request that goes through is sent to the hub's device file
   * and asks it to set (or clear) the feature on the resolved port.
   */
  lemma SetFeatureEffectSpec(hw: Hardware, ports: seq<Port>, text: string, feature: nat, enable: bool)
    requires SetFeatureEffect(hw, ports, text, feature, enable).Success?
    ensures FeatureTarget(ports, text).Success?
    ensures var (hub, port) := FeatureTarget(ports, text).value;
      var (path, header) := SetFeatureEffect(hw, ports, text, feature, enable).value;
      path == UsbFilename(hub.bus, hub.address)
      && hw.canOpen(path) && hw.transfer(path, header).Some?
      && Interpret(header) == Some(if enable then SetPortFeature(port % 0x1_0000, feature % 0x1_0000)
                                   else ClearPortFeature(port % 0x1_0000, feature % 0x1_0000))
  {
  }
}
