/**
 * The port table as the tool holds it: a list of entries that
 * `list_usbports` fills and `update_hubs`, `update_comports` and
 * `describe_ports` change in place, and the commands built on it.
 */
module UsbWatch {
  import opened Wrappers
  import opened Text
  import opened Location
  import opened HubProtocol
  import opened Topology
  import opened Comports
  import opened Listing
  import opened Control

  /** The table `list_usbports` starts from: one entry per device, in enumeration order. */
  function Enumerated(devices: seq<UsbDevice>): seq<Port> {
    seq(|devices|, i requires 0 <= i < |devices| => DeriveEntry(devices[i]))
  }

  /** Enumerating one more device appends its entry. */
  lemma EnumeratedStep(devices: seq<UsbDevice>, i: nat)
    requires i < |devices|
    ensures Enumerated(devices[..i + 1]) == Enumerated(devices[..i]) + [DeriveEntry(devices[i])]
  {
    assert devices[..i + 1][..i] == devices[..i];
  }

  /** `list_usbports()`: enumerate, then ask the hubs, then name the serial ports. */
  function ListPorts(devices: seq<UsbDevice>, hw: Hardware, infos: seq<ComPort>): Result<seq<Port>> {
    match ExpandHubs(Enumerated(devices), hw)
    case None => Failure(HardwareError)
    case Some(ports) => UpdateComports(ports, infos)
  }

  /** `soft_reset(text)`: the listing, then the reset. */
  function SoftReset(devices: seq<UsbDevice>, hw: Hardware, infos: seq<ComPort>, text: string): Result<string> {
    match ListPorts(devices, hw, infos)
    case Failure(e) => Failure(e)
    case Success(ports) => SoftResetEffect(hw, ports, text)
  }

  /** `set_feature(text, feature, value)`: the listing, then the hub request. */
  function SetFeature(devices: seq<UsbDevice>, hw: Hardware, infos: seq<ComPort>, text: string, feature: nat, enable: bool)
    : Result<(string, ControlHeader)>
  {
    match ListPorts(devices, hw, infos)
    case Failure(e) => Failure(e)
    case Success(ports) => SetFeatureEffect(hw, ports, text, feature, enable)
  }

  /**
   * A listing that goes through holds one entry per device, in enumeration
   * order, at the device's location, with the port count its hub reported
   * (or none), followed only by entries for empty hub ports: each of these
   * sits at a port `1..N` of an enumerated hub that reported N ports, at a
   * location no earlier entry has.
   */
  lemma ListPortsSpec(devices: seq<UsbDevice>, hw: Hardware, infos: seq<ComPort>)
    requires ListPorts(devices, hw, infos).Success?
    ensures var r := ListPorts(devices, hw, infos).value;
      |r| >= |devices|
      && (forall i :: 0 <= i < |devices| ==>
            r[i].location == DeriveEntry(devices[i]).location && r[i].device == DeriveEntry(devices[i]).device
            && r[i].numPorts == CountAfter(DeriveEntry(devices[i]), hw))
      && forall i :: |devices| <= i < |r| ==> r[i].device.None?
    ensures var r := ListPorts(devices, hw, infos).value;
      forall i :: |devices| <= i < |r| ==>
        (exists h :: 0 <= h < |devices| && IsHubPort(DeriveEntry(devices[h]), hw, r[i].location))
        && forall j :: 0 <= j < i ==> r[j].location != r[i].location
  {
    var e := Enumerated(devices);
    assert |e| == |devices| && forall i :: 0 <= i < |devices| ==> e[i] == DeriveEntry(devices[i]);
    ExpandFromSpec(e, 0, |e|, hw);
    ExpandFromAppends(e, 0, |e|, hw);
    var ports := ExpandHubs(e, hw).value;
    UpdateComportsOnlyNames(ports, infos);
  }

  /**
   * The listing raises an OS error exactly when some enumerated hub cannot be
   * opened or has a port status read raise, and otherwise a parse error
   * exactly when some USB serial port's location does not parse.
   */
  lemma ListPortsFails(devices: seq<UsbDevice>, hw: Hardware, infos: seq<ComPort>)
    ensures ListPorts(devices, hw, infos) == Failure(HardwareError) <==>
      exists j :: 0 <= j < |devices| && HubFails(DeriveEntry(devices[j]), hw)
    ensures ListPorts(devices, hw, infos) == Failure(BadLocation) <==>
      (ExpandHubs(Enumerated(devices), hw).Some?
       && exists i :: 0 <= i < |infos| && IsUsbComPort(infos[i]) && ParseLocation(infos[i].location).Failure?)
  {
    var e := Enumerated(devices);
    assert |e| == |devices| && forall i :: 0 <= i < |devices| ==> e[i] == DeriveEntry(devices[i]);
    ExpandHubsFails(e, hw);
    if ExpandHubs(e, hw).Some? {
      UpdateComportsFails(ExpandHubs(e, hw).value, infos);
    }
  }

  /**
   * `soft_reset` lists the ports before it looks at its argument: when a hub
   * fails, it raises the OS error whatever the location text, even one that
   * would not parse; `set_feature` does the same.
   */
  lemma ListingFailsFirst(devices: seq<UsbDevice>, hw: Hardware, infos: seq<ComPort>, text: string,
                          feature: nat, enable: bool)
    requires exists j :: 0 <= j < |devices| && HubFails(DeriveEntry(devices[j]), hw)
    ensures SoftReset(devices, hw, infos, text) == Failure(HardwareError)
    ensures SetFeature(devices, hw, infos, text, feature, enable) == Failure(HardwareError)
  {
    ListPortsFails(devices, hw, infos);
  }

  /**
   * A soft reset that goes through resets the device file of the device of
   * the first entry at the parsed location in the fresh listing.
   */
  lemma SoftResetSpec(devices: seq<UsbDevice>, hw: Hardware, infos: seq<ComPort>, text: string)
    requires SoftReset(devices, hw, infos, text).Success?
    ensures ListPorts(devices, hw, infos).Success? && ParseLocation(text).Success?
    ensures var ports := ListPorts(devices, hw, infos).value;
      var loc := ParseLocation(text).value;
      exists i :: 0 <= i < |ports| && ports[i].location == loc && ports[i].device.Some?
        && SoftReset(devices, hw, infos, text).value == UsbFilename(ports[i].device.value.bus, ports[i].device.value.address)
        && forall j :: 0 <= j < i ==> ports[j].location != loc
  {
    var ports := ListPorts(devices, hw, infos).value;
    ResetTargetSpec(ports, text);
  }

  /**
   * A feature request that goes through is sent to the device file of the
   * first entry at the parent of the parsed location in the fresh listing,
   * and sets or clears the feature on the location's last port.
   */
  lemma SetFeatureSpec(devices: seq<UsbDevice>, hw: Hardware, infos: seq<ComPort>, text: string,
                       feature: nat, enable: bool)
    returns (ports: seq<Port>, loc: Location, path: string, header: ControlHeader, h: nat)
    requires SetFeature(devices, hw, infos, text, feature, enable).Success?
    ensures ListPorts(devices, hw, infos) == Success(ports)
    ensures ParseLocation(text) == Success(loc)
    ensures SetFeature(devices, hw, infos, text, feature, enable) == Success((path, header))
    ensures |loc| >= 1 && Find(ports, loc).Some?
    ensures h < |ports| && IsChildOf(loc, ports[h].location) && ports[h].device.Some?
    ensures path == UsbFilename(ports[h].device.value.bus, ports[h].device.value.address)
    ensures Interpret(header) == Some(if enable then SetPortFeature(loc[|loc| - 1] % 0x1_0000, feature % 0x1_0000)
                                      else ClearPortFeature(loc[|loc| - 1] % 0x1_0000, feature % 0x1_0000))
    ensures forall j :: 0 <= j < h ==> ports[j].location != ports[h].location
  {
    ports := ListPorts(devices, hw, infos).value;
    SetFeatureAfterListing(devices, hw, infos, ports, text, feature, enable);
    loc := ParseLocation(text).value;
    h := FeatureEffectResolved(hw, ports, text, loc, feature, enable);
    path := SetFeatureEffect(hw, ports, text, feature, enable).value.0;
    header := SetFeatureEffect(hw, ports, text, feature, enable).value.1;
  }

  /** Once the listing has gone through, `set_feature` is the request on that listing. */
  lemma SetFeatureAfterListing(devices: seq<UsbDevice>, hw: Hardware, infos: seq<ComPort>, ports: seq<Port>,
                               text: string, feature: nat, enable: bool)
    requires ListPorts(devices, hw, infos) == Success(ports)
    ensures SetFeature(devices, hw, infos, text, feature, enable) == SetFeatureEffect(hw, ports, text, feature, enable)
  {
  }

  class PortTable {
    var entries: seq<Port>

    /** The enumeration loop of `list_usbports`. */
    constructor (devices: seq<UsbDevice>)
      ensures entries == Enumerated(devices)
    {
      var ports := [];
      var i := 0;
      while i < |devices|
        invariant 0 <= i <= |devices|
        invariant ports == Enumerated(devices[..i])
      {
        EnumeratedStep(devices, i);
        ports := ports + [DeriveEntry(devices[i])];
        i := i + 1;
      }
      assert devices[..|devices|] == devices;
      entries := ports;
    }

    /** `find(ports, 'location', loc)`: the first entry at `loc`, by a linear scan. */
    method FindEntry(loc: Location) returns (r: Option<nat>)
      ensures r == Find(entries, loc)
      ensures r.Some? ==> r.value < |entries| && entries[r.value].location == loc
    {
      FindFirst(entries, loc);
      var i := 0;
      while i < |entries|
        invariant 0 <= i <= |entries|
        invariant forall j :: 0 <= j < i ==> entries[j].location != loc
      {
        if entries[i].location == loc {
          assert Find(entries, loc).Some?;
          return Some(i);
        }
        i := i + 1;
      }
      return None;
    }

    /** The inner step of `update_hubs`: set the status of the entry at `loc`, or append one for an empty port. */
    method AttachPortStatus(loc: Location, status: string)
      modifies this
      ensures entries == AttachStatus(old(entries), loc, status)
    {
      var j := FindEntry(loc);
      if j.Some? {
        entries := entries[j.value := entries[j.value].(portStatus := Some(status))];
      } else {
        entries := entries + [Ghost(loc, status)];
      }
    }

    /** The port loop of `update_hubs` for one opened hub with `n` ports; false when a status read raises. */
    method ProbePorts(hw: Hardware, hub: DeviceRecord, loc: Location, n: nat) returns (ok: bool)
      modifies this
      ensures var probed := ProbeFrom(old(entries), PortStatusOracle(hw, hub), loc, 1, n);
        (ok <==> probed.Some?) && (ok ==> entries == probed.value)
    {
      ghost var status := PortStatusOracle(hw, hub);
      var path := DevicePath(hub);
      var k := 1;
      while k <= n
        invariant 1 <= k <= n + 1
        invariant ProbeFrom(entries, status, loc, k, n) == ProbeFrom(old(entries), status, loc, 1, n)
        decreases n + 1 - k
      {
        var reply := hw.transfer(path, PortStatusRequest(k));
        if reply.None? {
          return false;
        }
        var letters := DecodePortStatus(FillBuffer(reply.value, PORT_STATUS_SIZE), hub.usbLevel);
        assert status(k) == Some(letters);
        AttachPortStatus(loc + [k], letters);
        k := k + 1;
      }
      return true;
    }

    /** One turn of the `update_hubs` loop, for the entry at index `i`; false when it raises. */
    method VisitEntry(hw: Hardware, i: nat) returns (ok: bool)
      requires i < |entries|
      modifies this
      ensures var visited := VisitHub(old(entries), i, hw);
        (ok <==> visited.Some?) && (ok ==> entries == visited.value)
    {
      var d := entries[i];
      if !IsHub(d) {
        return true;
      }
      var hub := d.device.value;
      if !hw.canOpen(DevicePath(hub)) {
        return false;
      }
      var numports := ReadNumPorts(hw, hub);
      if numports.None? {
        return true;
      }
      entries := entries[i := d.(numPorts := numports)];
      ok := ProbePorts(hw, hub, d.location, numports.value);
    }

    /**
     * `update_hubs`: every entry present before the loop that is a hub gets
     * its port count and the status of each of its ports; false when it raises.
     */
    method UpdateHubs(hw: Hardware) returns (ok: bool)
      modifies this
      ensures var expanded := ExpandHubs(old(entries), hw);
        (ok <==> expanded.Some?) && (ok ==> entries == expanded.value)
    {
      var count := |entries|;
      var i := 0;
      while i < count
        invariant 0 <= i <= count <= |entries|
        invariant ExpandFrom(entries, i, count, hw) == ExpandHubs(old(entries), hw)
      {
        ok := VisitEntry(hw, i);
        if !ok {
          return false;
        }
        i := i + 1;
      }
      return true;
    }

    /** `update_comports`: false when the location of a USB serial port does not parse. */
    method UpdateComportNames(infos: seq<ComPort>) returns (ok: bool)
      modifies this
      ensures var named := UpdateComports(old(entries), infos);
        (ok <==> named.Success?) && (ok ==> entries == named.value)
    {
      var i := 0;
      while i < |infos|
        invariant 0 <= i <= |infos|
        invariant UpdateComports(entries, infos[i..]) == UpdateComports(old(entries), infos)
      {
        var info := infos[i];
        assert infos[i..][0] == info && infos[i..][1..] == infos[i + 1..];
        if info.vid.Some? && info.pid.Some? {
          var parsed := ParseLocation(info.location);
          if parsed.Failure? {
            return false;
          }
          var j := FindEntry(parsed.value);
          if j.Some? {
            var d := entries[j.value];
            var name := if Truthy(d.name) then d.name.value + " " + info.name else info.name;
            entries := entries[j.value := d.(name := Some(name))];
          }
        }
        i := i + 1;
      }
      return true;
    }

    /** The line of one entry, its label built up the way `describe_ports` does. */
    static method DescribeEntry(d: Port) returns (line: string)
      requires |d.location| >= 1
      ensures line == FormatLine(d)
    {
      var product := if d.device.Some? then d.device.value.product else None;
      var shown: string;
      if d.device.None? {
        shown := "";
      } else if !Truthy(product) {
        shown := "?";
      } else {
        shown := product.value;
      }
      if d.device.Some? && Truthy(d.device.value.serialNumber) {
        shown := shown + " (" + d.device.value.serialNumber.value + ")";
      }
      if d.device.Some? && Truthy(d.device.value.manufacturer) {
        shown := d.device.value.manufacturer.value + " " + shown;
      }
      if Truthy(d.name) {
        shown := d.name.value + " - " + shown;
      }
      line := PadRight(FormatAddress(d.location), 13) + " " + PadRight(StatusText(d), 5) + " " + VidPidText(d) + " " + shown;
    }

    /** The line loop of `describe_ports` over the table as it stands. */
    method LinesOf() returns (lines: seq<string>)
      requires forall i :: 0 <= i < |entries| ==> |entries[i].location| >= 1
      ensures lines == Lines(entries)
    {
      var table := entries;
      lines := [];
      var i := 0;
      while i < |table|
        invariant 0 <= i <= |table|
        invariant lines == Lines(table[..i])
      {
        LinesStep(table, i);
        var d := table[i];
        if !IsHub(d) {
          var line := DescribeEntry(d);
          lines := lines + [line];
        }
        i := i + 1;
      }
      assert table[..|table|] == table;
    }

    /** `describe_ports`: sorts the table in place, then one line per entry that is not a hub. */
    method Describe() returns (lines: seq<string>)
      requires forall i :: 0 <= i < |entries| ==> |entries[i].location| >= 1
      modifies this
      ensures entries == SortByLocation(old(entries))
      ensures lines == DescribeLines(old(entries))
    {
      SortByLocationMembers(entries);
      entries := SortByLocation(entries);
      lines := LinesOf();
    }
  }

  /** `list_usbports()` on a fresh table. */
  method ListUsbPorts(devices: seq<UsbDevice>, hw: Hardware, infos: seq<ComPort>) returns (res: Result<seq<Port>>)
    ensures res == ListPorts(devices, hw, infos)
  {
    var table := new PortTable(devices);
    var ok := table.UpdateHubs(hw);
    if !ok {
      return Failure(HardwareError);
    }
    UpdateComportsFails(table.entries, infos);
    ok := table.UpdateComportNames(infos);
    if !ok {
      return Failure(BadLocation);
    }
    return Success(table.entries);
  }
}
