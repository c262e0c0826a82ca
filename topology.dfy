/**
 * The port table `list_usbports` builds: one entry per enumerated device,
 * then `update_hubs` asks every hub for its port count and the status of
 * each of its ports, attaching the status to the entry already at that
 * location or appending a device-less ("ghost") entry for an empty port.
 */
module Topology {
  import opened Wrappers
  import opened Text
  import opened Location
  import opened HubProtocol

  /** What pyusb reports about one device; a string read that failed is None. */
  datatype UsbDevice = UsbDevice(
    bus: nat, address: nat, portNumber: Option<nat>, portNumbers: Option<seq<nat>>,
    bcdUSB: U16, idVendor: U16, idProduct: U16, deviceClass: U8,
    serialNumber: Option<string>, product: Option<string>, manufacturer: Option<string>)

  const USB_CLASS_HUB: U8 := 0x09

  /** The device half of a port entry: the keys `list_usbports` fills from the device. */
  datatype DeviceRecord = DeviceRecord(
    bus: nat, portNumber: Option<nat>, address: nat, vendorId: U16, productId: U16,
    usbLevel: nat, serialNumber: Option<string>, product: Option<string>,
    manufacturer: Option<string>, isHub: bool)

  /**
   * One entry of the port table. A ghost entry (an empty hub port) has only
   * a location and a status; `numPorts` is set on hubs, `name` by the serial
   * port matching.
   */
  datatype Port = Port(
    location: Location, device: Option<DeviceRecord>, numPorts: Option<nat>,
    portStatus: Option<string>, name: Option<string>)

  /** Python truthiness of an optional string: present and non-empty. */
  predicate Truthy(s: Option<string>) {
    s.Some? && s.value != ""
  }

  /** `x.strip()` applied only when `x` is truthy, as `list_usbports` does. */
  function StripIfTruthy(s: Option<string>): Option<string> {
    if Truthy(s) then Some(Strip(s.value)) else s
  }

  /** The entry `list_usbports` makes for one device. */
  function DeriveEntry(dev: UsbDevice): (p: Port)
    ensures |p.location| >= 1 && p.location[0] == dev.bus
    ensures p.location[1..] == (if dev.portNumbers.Some? then dev.portNumbers.value else [])
    ensures p.device.Some? && p.numPorts.None? && p.portStatus.None? && p.name.None?
    ensures var d := p.device.value;
      d.bus == dev.bus && d.address == dev.address && d.portNumber == dev.portNumber
      && d.vendorId == dev.idVendor && d.productId == dev.idProduct
    ensures var d := p.device.value;
      d.usbLevel * 0x100 <= dev.bcdUSB < (d.usbLevel + 1) * 0x100
    ensures p.device.value.isHub <==> dev.deviceClass == USB_CLASS_HUB
    ensures p.device.value.serialNumber == dev.serialNumber
    ensures Truthy(dev.product) ==> p.device.value.product == Some(Strip(dev.product.value))
    ensures !Truthy(dev.product) ==> p.device.value.product == dev.product
    ensures Truthy(dev.manufacturer) ==> p.device.value.manufacturer == Some(Strip(dev.manufacturer.value))
    ensures !Truthy(dev.manufacturer) ==> p.device.value.manufacturer == dev.manufacturer
  {
    var ports := if dev.portNumbers.Some? then dev.portNumbers.value else [];
    var location := [dev.bus] + ports;
    assert location[1..] == ports;
    var record := DeviceRecord(
      dev.bus, dev.portNumber, dev.address, dev.idVendor, dev.idProduct,
      dev.bcdUSB / 0x100, dev.serialNumber, StripIfTruthy(dev.product),
      StripIfTruthy(dev.manufacturer), dev.deviceClass == USB_CLASS_HUB);
    Port(location, Some(record), None, None, None)
  }

  /** A device that is not behind a hub port (a root hub) sits at the bare bus location. */
  lemma RootHubLocation(dev: UsbDevice)
    requires dev.portNumbers.None? || dev.portNumbers == Some([])
    ensures DeriveEntry(dev).location == [dev.bus]
  {
    var loc := DeriveEntry(dev).location;
    assert loc == [loc[0]] + loc[1..];
  }

  // ---- find ----

  /** `find(ports, 'location', loc)`: the index of the first entry at `loc`. */
  function Find(ports: seq<Port>, loc: Location): (r: Option<nat>)
    ensures r.Some? ==> r.value < |ports| && ports[r.value].location == loc
    decreases |ports|
  {
    if ports == [] then None
    else if ports[0].location == loc then Some(0)
    else match Find(ports[1..], loc)
      case None => None
      case Some(i) => Some(i + 1)
  }

  /** `find` returns the first entry at `loc`, and nothing exactly when no entry is there. */
  lemma {:induction false} FindFirst(ports: seq<Port>, loc: Location)
    ensures Find(ports, loc).Some? ==> forall i :: 0 <= i < Find(ports, loc).value ==> ports[i].location != loc
    ensures Find(ports, loc).None? <==> forall i :: 0 <= i < |ports| ==> ports[i].location != loc
    decreases |ports|
  {
    if ports != [] && ports[0].location != loc {
      FindFirst(ports[1..], loc);
      assert forall i :: 1 <= i < |ports| ==> ports[i] == ports[1..][i - 1];
    }
  }

  /** `find` only looks at locations: a table with the same locations, maybe extended, finds the same first entry. */
  lemma FindSameLocations(a: seq<Port>, b: seq<Port>, loc: Location)
    requires |a| <= |b| && forall i :: 0 <= i < |a| ==> b[i].location == a[i].location
    requires Find(a, loc).Some? || |a| == |b|
    ensures Find(b, loc) == Find(a, loc)
  {
    FindFirst(a, loc);
    FindFirst(b, loc);
    if Find(b, loc).Some? && Find(a, loc).Some? {
      var i, j := Find(a, loc).value, Find(b, loc).value;
      assert !(i < j) && !(j < i);
    }
  }

  /** An entry appended at a location no entry had is the one `find` returns. */
  lemma {:induction false} FindAppended(a: seq<Port>, x: Port)
    requires Find(a, x.location).None?
    ensures Find(a + [x], x.location) == Some(|a|)
    decreases |a|
  {
    if a != [] {
      assert (a + [x])[0] == a[0] && (a + [x])[1..] == a[1..] + [x];
      FindAppended(a[1..], x);
    }
  }

  // ---- the hardware ----

  /**
   * The devices' answers: whether the usbfs node at a path can be opened
   * for writing, the reply a control transfer gets (None when the ioctl
   * raises), and whether a USBDEVFS_RESET succeeds.
   */
  datatype Hardware = Hardware(
    canOpen: string -> bool,
    transfer: (string, ControlHeader) -> Option<Bytes>,
    reset: string -> bool)

  function DevicePath(d: DeviceRecord): string {
    UsbFilename(d.bus, d.address)
  }

  predicate IsHub(p: Port) {
    p.device.Some? && p.device.value.isHub
  }

  /** `usb_hub_numports`: bNbrPorts of the hub descriptor, None when the transfer raised. */
  function ReadNumPorts(hw: Hardware, d: DeviceRecord): (r: Option<nat>)
    ensures r.Some? <==> hw.transfer(DevicePath(d), HubDescriptorRequest(d.usbLevel)).Some?
    ensures r.Some? ==> r.value < 256
  {
    NumPortsOf(hw.transfer(DevicePath(d), HubDescriptorRequest(d.usbLevel)))
  }

  /** `usb_hub_port_status`: the status letters of port `k`, None when the transfer raised. */
  function ReadPortStatus(hw: Hardware, d: DeviceRecord, k: nat): (r: Option<string>)
    ensures r.Some? <==> hw.transfer(DevicePath(d), PortStatusRequest(k)).Some?
    ensures r.Some? ==> Subsequence(r.value, FlagLetters)
  {
    match hw.transfer(DevicePath(d), PortStatusRequest(k))
    case None => None
    case Some(reply) =>
      var word := DecodePortStatusReply(FillBuffer(reply, PORT_STATUS_SIZE)).status;
      StatusFlagsOrdered(word, d.usbLevel);
      Some(StatusFlags(word, d.usbLevel))
  }

  /** The status reads of one hub, port by port. */
  function PortStatusOracle(hw: Hardware, d: DeviceRecord): nat -> Option<string> {
    (k: nat) => ReadPortStatus(hw, d, k)
  }

  // ---- update_hubs, as a function of the table ----

  /** The entry appended for a hub port no entry sits at. */
  function Ghost(loc: Location, status: string): Port {
    Port(loc, None, None, Some(status), None)
  }

  /** An entry no device stands behind and no serial port has named (yet). */
  predicate IsGhost(p: Port) {
    p.device.None? && p.name.None?
  }

  /** Same location, device and name: what `update_hubs` never changes in an entry. */
  predicate SameEntry(a: Port, b: Port) {
    a.location == b.location && a.device == b.device && a.name == b.name
  }

  /**
   * `after` is `before` with statuses or port counts set and ghost entries
   * appended, each at a location no earlier entry has: nothing removed,
   * reordered or otherwise changed, and no location appended twice.
   */
  predicate Extends(before: seq<Port>, after: seq<Port>) {
    |before| <= |after|
    && (forall i :: 0 <= i < |before| ==> SameEntry(before[i], after[i]))
    && (forall i :: |before| <= i < |after| ==> IsGhost(after[i]))
    && (forall i, j :: |before| <= i < |after| && 0 <= j < i ==> after[j].location != after[i].location)
  }

  /** The port counts of the entries of `before` are kept. */
  predicate KeepsCounts(before: seq<Port>, after: seq<Port>)
    requires |before| <= |after|
  {
    forall i :: 0 <= i < |before| ==> after[i].numPorts == before[i].numPorts
  }

  /** The entry at `loc` is the first such and carries `status`. */
  predicate Attached(ports: seq<Port>, loc: Location, status: string) {
    Find(ports, loc).Some? && ports[Find(ports, loc).value].portStatus == Some(status)
  }

  /** `child` is `parent` plus one port number. */
  predicate IsChildOf(child: Location, parent: Location) {
    |child| == |parent| + 1 && child[..|parent|] == parent
  }

  lemma ExtendsTransitive(a: seq<Port>, b: seq<Port>, c: seq<Port>)
    requires Extends(a, b) && Extends(b, c)
    ensures Extends(a, c)
  {
    forall i, j | |a| <= i < |c| && 0 <= j < i
      ensures c[j].location != c[i].location
    {
      if i < |b| {
        assert SameEntry(b[i], c[i]) && SameEntry(b[j], c[j]);
      }
    }
  }

  lemma KeepsCountsTransitive(a: seq<Port>, b: seq<Port>, c: seq<Port>)
    requires |a| <= |b| <= |c| && KeepsCounts(a, b) && KeepsCounts(b, c)
    ensures KeepsCounts(a, c)
  {
  }

  /** The inner step of `update_hubs`: status onto the first entry at `loc`, or a ghost appended. */
  function AttachStatus(ports: seq<Port>, loc: Location, status: string): (r: seq<Port>)
    ensures |ports| <= |r|
  {
    match Find(ports, loc)
    case Some(j) => ports[j := ports[j].(portStatus := Some(status))]
    case None => ports + [Ghost(loc, status)]
  }

  /**
   * Afterwards the first entry at `loc` carries `status`; one ghost entry,
   * at `loc` with that status, is appended exactly when none was at `loc`,
   * and nothing else changes.
   */
  lemma AttachStatusSpec(ports: seq<Port>, loc: Location, status: string)
    ensures var r := AttachStatus(ports, loc, status);
      Extends(ports, r) && KeepsCounts(ports, r) && Attached(r, loc, status)
      && (|r| == |ports| <==> Find(ports, loc).Some?)
      && |r| <= |ports| + 1 && (|r| > |ports| ==> r[|ports|] == Ghost(loc, status))
  {
    AttachStatusExtends(ports, loc, status);
    var r := AttachStatus(ports, loc, status);
    if Find(ports, loc).None? {
      FindAppended(ports, Ghost(loc, status));
    } else {
      FindSameLocations(ports, r, loc);
    }
  }

  /** Attaching only sets a status, or appends one ghost at `loc`, a location no entry had. */
  lemma AttachStatusExtends(ports: seq<Port>, loc: Location, status: string)
    ensures var r := AttachStatus(ports, loc, status);
      Extends(ports, r) && KeepsCounts(ports, r)
      && |r| <= |ports| + 1 && (|r| > |ports| ==> r[|ports|] == Ghost(loc, status))
  {
    FindFirst(ports, loc);
  }

  /** Attaching at one location leaves what is attached at any other location in place. */
  lemma AttachPreserves(ports: seq<Port>, loc: Location, status: string,
                        other: Location, otherStatus: string)
    requires Attached(ports, other, otherStatus) && other != loc
    ensures Attached(AttachStatus(ports, loc, status), other, otherStatus)
  {
    var r := AttachStatus(ports, loc, status);
    FindSameLocations(ports, r, other);
  }

  /**
   * The status loop of one hub, from port `k` to port `n`, with `status(k)`
   * the letters read from port `k`; None as soon as a status read raises.
   */
  function ProbeFrom(ports: seq<Port>, status: nat -> Option<string>, loc: Location, k: nat, n: nat)
    : (r: Option<seq<Port>>)
    ensures r.Some? ==> |ports| <= |r.value|
    decreases n + 1 - k
  {
    if k > n then Some(ports)
    else match status(k)
      case None => None
      case Some(letters) => ProbeFrom(AttachStatus(ports, loc + [k], letters), status, loc, k + 1, n)
  }

  /** `child` is the port `k..n` of the hub at `loc`. */
  predicate ProbedPort(child: Location, loc: Location, k: nat, n: nat) {
    IsChildOf(child, loc) && k <= child[|loc|] <= n
  }

  /**
   * The status loop only sets statuses and appends ghosts, each at a port
   * `k..n` of the hub at `loc`.
   */
  lemma {:induction false} ProbeFromExtends(ports: seq<Port>, status: nat -> Option<string>, loc: Location, k: nat, n: nat)
    requires ProbeFrom(ports, status, loc, k, n).Some?
    ensures Extends(ports, ProbeFrom(ports, status, loc, k, n).value)
    ensures KeepsCounts(ports, ProbeFrom(ports, status, loc, k, n).value)
    ensures var r := ProbeFrom(ports, status, loc, k, n).value;
      forall i :: |ports| <= i < |r| ==> ProbedPort(r[i].location, loc, k, n)
    decreases n + 1 - k
  {
    if k <= n {
      var letters := status(k).value;
      var next := AttachStatus(ports, loc + [k], letters);
      AttachStatusExtends(ports, loc + [k], letters);
      ProbeFromExtends(next, status, loc, k + 1, n);
      var r := ProbeFrom(next, status, loc, k + 1, n).value;
      ExtendsTransitive(ports, next, r);
      KeepsCountsTransitive(ports, next, r);
      ChildOfOnly(loc, k, loc);
      forall i | |ports| <= i < |r|
        ensures ProbedPort(r[i].location, loc, k, n)
      {
        if i < |next| {
          assert SameEntry(next[i], r[i]);
        }
      }
    }
  }

  /** The status loop fails exactly when the status read of one of its ports raises. */
  lemma {:induction false} ProbeFromFails(ports: seq<Port>, status: nat -> Option<string>, loc: Location, k: nat, n: nat)
    ensures ProbeFrom(ports, status, loc, k, n).None? <==> exists j :: k <= j <= n && status(j).None?
    decreases n + 1 - k
  {
    if k <= n && status(k).Some? {
      var next := AttachStatus(ports, loc + [k], status(k).value);
      ProbeFromFails(next, status, loc, k + 1, n);
      assert forall j :: k <= j <= n && status(j).None? ==> k + 1 <= j;
    }
  }

  /** `loc + [k]` is a child of `loc` and of no other location. */
  lemma ChildOfOnly(loc: Location, k: nat, parent: Location)
    ensures IsChildOf(loc + [k], loc)
    ensures IsChildOf(loc + [k], parent) ==> parent == loc
  {
    assert (loc + [k])[..|loc|] == loc;
  }

  /** After the status loop, every probed port carries the status read from it. */
  lemma {:induction false} ProbeFromCovers(ports: seq<Port>, status: nat -> Option<string>, loc: Location, k: nat, n: nat, j: nat)
    requires ProbeFrom(ports, status, loc, k, n).Some? && k <= j <= n
    ensures status(j).Some? && Attached(ProbeFrom(ports, status, loc, k, n).value, loc + [j], status(j).value)
    decreases n + 1 - k
  {
    var letters := status(k).value;
    var next := AttachStatus(ports, loc + [k], letters);
    assert ProbeFrom(ports, status, loc, k, n) == ProbeFrom(next, status, loc, k + 1, n);
    if j == k {
      assert Attached(next, loc + [k], letters) by {
        AttachStatusSpec(ports, loc + [k], letters);
      }
      assert !IsChildOf(loc + [k], loc) || (loc + [k])[|loc|] == k by {
        ChildOfOnly(loc, k, loc);
      }
      ProbeFromPreserves(next, status, loc, k + 1, n, loc + [k], letters);
    } else {
      ProbeFromCovers(next, status, loc, k + 1, n, j);
    }
  }

  /** A location outside the children `k..n` of `loc` is not the child `k`, and is outside `k+1..n`. */
  lemma OutsideProbedRange(other: Location, loc: Location, k: nat, n: nat)
    requires !(IsChildOf(other, loc) && k <= other[|loc|] <= n)
    ensures k <= n ==> other != loc + [k]
    ensures !(IsChildOf(other, loc) && k + 1 <= other[|loc|] <= n)
  {
    if other == loc + [k] {
      ChildOfOnly(loc, k, loc);
      assert other[|loc|] == k;
    }
  }

  /** The status loop of a hub leaves alone what is attached at a location that is not its child. */
  lemma {:induction false} ProbeFromPreserves(ports: seq<Port>, status: nat -> Option<string>, loc: Location, k: nat, n: nat,
                                              other: Location, otherStatus: string)
    requires ProbeFrom(ports, status, loc, k, n).Some?
    requires Attached(ports, other, otherStatus) && !(IsChildOf(other, loc) && k <= other[|loc|] <= n)
    ensures Attached(ProbeFrom(ports, status, loc, k, n).value, other, otherStatus)
    decreases n + 1 - k
  {
    if k <= n {
      var letters := status(k).value;
      var next := AttachStatus(ports, loc + [k], letters);
      assert ProbeFrom(ports, status, loc, k, n) == ProbeFrom(next, status, loc, k + 1, n);
      OutsideProbedRange(other, loc, k, n);
      AttachPreserves(ports, loc + [k], letters, other, otherStatus);
      ProbeFromPreserves(next, status, loc, k + 1, n, other, otherStatus);
    }
  }

  /** The body of the `update_hubs` loop for the entry at index `i`. */
  function VisitHub(ports: seq<Port>, i: nat, hw: Hardware): (r: Option<seq<Port>>)
    requires i < |ports|
    ensures r.Some? ==> |ports| <= |r.value|
  {
    var p := ports[i];
    if !IsHub(p) then Some(ports)
    else if !hw.canOpen(DevicePath(p.device.value)) then None
    else match ReadNumPorts(hw, p.device.value)
      case None => Some(ports)
      case Some(n) => ProbeFrom(ports[i := p.(numPorts := Some(n))], PortStatusOracle(hw, p.device.value), p.location, 1, n)
  }

  /** The `update_hubs` loop from snapshot index `i` on; `count` is the snapshot length. */
  function ExpandFrom(ports: seq<Port>, i: nat, count: nat, hw: Hardware): (r: Option<seq<Port>>)
    requires count <= |ports|
    decreases count - i
  {
    if i >= count then Some(ports)
    else match VisitHub(ports, i, hw)
      case None => None
      case Some(next) => ExpandFrom(next, i + 1, count, hw)
  }

  /** The port count `update_hubs` leaves on an entry of the snapshot. */
  function CountAfter(p: Port, hw: Hardware): Option<nat> {
    if IsHub(p) && ReadNumPorts(hw, p.device.value).Some? then ReadNumPorts(hw, p.device.value) else p.numPorts
  }

  /** Visiting entry `i` sets at most its own port count and otherwise only extends the table. */
  lemma VisitHubSpec(ports: seq<Port>, i: nat, hw: Hardware)
    requires i < |ports| && VisitHub(ports, i, hw).Some?
    ensures var r := VisitHub(ports, i, hw).value;
      Extends(ports, r)
      && r[i].numPorts == CountAfter(ports[i], hw)
      && forall j :: 0 <= j < |ports| && j != i ==> r[j].numPorts == ports[j].numPorts
  {
    var p := ports[i];
    if IsHub(p) && ReadNumPorts(hw, p.device.value).Some? {
      var n := ReadNumPorts(hw, p.device.value).value;
      var counted := ports[i := p.(numPorts := Some(n))];
      var status := PortStatusOracle(hw, p.device.value);
      assert VisitHub(ports, i, hw) == ProbeFrom(counted, status, p.location, 1, n);
      ProbeFromExtends(counted, status, p.location, 1, n);
      assert counted[i].numPorts == CountAfter(p, hw);
    } else {
      assert VisitHub(ports, i, hw) == Some(ports);
    }
  }

  /** The entry is a hub whose device file cannot be opened, or one of whose port status reads raises. */
  predicate HubFails(p: Port, hw: Hardware) {
    IsHub(p) && (!hw.canOpen(DevicePath(p.device.value))
      || (ReadNumPorts(hw, p.device.value).Some?
          && exists k :: (1 <= k <= ReadNumPorts(hw, p.device.value).value
                          && ReadPortStatus(hw, p.device.value, k).None?)))
  }

  /** `child` is one of the ports `1..N` of `hub`, a hub that reported N ports. */
  predicate IsHubPort(hub: Port, hw: Hardware, child: Location) {
    IsHub(hub) && ReadNumPorts(hw, hub.device.value).Some?
    && ProbedPort(child, hub.location, 1, ReadNumPorts(hw, hub.device.value).value)
  }

  /**
   * Visiting an entry only sets statuses and port counts and appends ghosts,
   * each at one of the ports of the visited hub.
   */
  lemma VisitHubExtends(ports: seq<Port>, i: nat, hw: Hardware)
    requires i < |ports| && VisitHub(ports, i, hw).Some?
    ensures Extends(ports, VisitHub(ports, i, hw).value)
    ensures var r := VisitHub(ports, i, hw).value;
      forall j :: |ports| <= j < |r| ==> IsHubPort(ports[i], hw, r[j].location)
  {
    VisitHubSpec(ports, i, hw);
    var p := ports[i];
    if IsHub(p) && ReadNumPorts(hw, p.device.value).Some? {
      var n := ReadNumPorts(hw, p.device.value).value;
      var counted := ports[i := p.(numPorts := Some(n))];
      var status := PortStatusOracle(hw, p.device.value);
      assert VisitHub(ports, i, hw) == ProbeFrom(counted, status, p.location, 1, n);
      ProbeFromExtends(counted, status, p.location, 1, n);
    } else {
      assert VisitHub(ports, i, hw) == Some(ports);
    }
  }

  /**
   * Visiting entry `i` raises exactly when it is a hub whose device file
   * cannot be opened, or one of whose port status reads raises.
   */
  lemma VisitHubFails(ports: seq<Port>, i: nat, hw: Hardware)
    requires i < |ports|
    ensures VisitHub(ports, i, hw).None? <==> HubFails(ports[i], hw)
  {
    var p := ports[i];
    if IsHub(p) && hw.canOpen(DevicePath(p.device.value)) && ReadNumPorts(hw, p.device.value).Some? {
      var n := ReadNumPorts(hw, p.device.value).value;
      var oracle := PortStatusOracle(hw, p.device.value);
      ProbeFromFails(ports[i := p.(numPorts := Some(n))], oracle, p.location, 1, n);
      assert forall k :: oracle(k) == ReadPortStatus(hw, p.device.value, k);
    }
  }

  /** Visiting a hub attaches the status of each of its ports to the entry at that port's location. */
  lemma VisitHubCovers(ports: seq<Port>, i: nat, hw: Hardware, k: nat)
    requires i < |ports| && VisitHub(ports, i, hw).Some? && IsHub(ports[i])
    requires ReadNumPorts(hw, ports[i].device.value).Some?
    requires 1 <= k <= ReadNumPorts(hw, ports[i].device.value).value
    ensures ReadPortStatus(hw, ports[i].device.value, k).Some?
    ensures Attached(VisitHub(ports, i, hw).value, ports[i].location + [k], ReadPortStatus(hw, ports[i].device.value, k).value)
  {
    var p := ports[i];
    var n := ReadNumPorts(hw, p.device.value).value;
    ProbeFromCovers(ports[i := p.(numPorts := Some(n))], PortStatusOracle(hw, p.device.value), p.location, 1, n, k);
  }

  /** Visiting entry `i` leaves alone what is attached at a location that is not a child of it. */
  lemma VisitHubPreserves(ports: seq<Port>, i: nat, hw: Hardware, other: Location, otherStatus: string)
    requires i < |ports| && VisitHub(ports, i, hw).Some?
    requires Attached(ports, other, otherStatus)
    requires IsHub(ports[i]) ==> !IsChildOf(other, ports[i].location)
    ensures Attached(VisitHub(ports, i, hw).value, other, otherStatus)
  {
    var p := ports[i];
    if IsHub(p) && ReadNumPorts(hw, p.device.value).Some? {
      var n := ReadNumPorts(hw, p.device.value).value;
      var counted := ports[i := p.(numPorts := Some(n))];
      FindSameLocations(ports, counted, other);
      ProbeFromPreserves(counted, PortStatusOracle(hw, p.device.value), p.location, 1, n, other, otherStatus);
    }
  }

  /** `update_hubs(ports)`: None when opening a hub or reading a port status raises. */
  function ExpandHubs(ports: seq<Port>, hw: Hardware): Option<seq<Port>> {
    ExpandFrom(ports, 0, |ports|, hw)
  }

  /** `CountAfter` looks only at the device and the port count of an entry. */
  lemma CountAfterSame(a: Port, b: Port, hw: Hardware)
    requires SameEntry(a, b) && a.numPorts == b.numPorts
    ensures CountAfter(a, hw) == CountAfter(b, hw)
  {
  }

  /**
   * The loop from index `i` only extends the table, and sets the port count
   * of each snapshot entry from `i` on as `CountAfter` says and no other.
   */
  lemma {:induction false} ExpandFromSpec(ports: seq<Port>, i: nat, count: nat, hw: Hardware)
    requires count <= |ports| && ExpandFrom(ports, i, count, hw).Some?
    ensures var r := ExpandFrom(ports, i, count, hw).value;
      Extends(ports, r)
      && forall j :: 0 <= j < |ports| ==>
           r[j].numPorts == if i <= j < count then CountAfter(ports[j], hw) else ports[j].numPorts
    decreases count - i
  {
    if i < count {
      var next := VisitHub(ports, i, hw).value;
      VisitHubSpec(ports, i, hw);
      ExpandFromSpec(next, i + 1, count, hw);
      var r := ExpandFrom(next, i + 1, count, hw).value;
      ExtendsTransitive(ports, next, r);
      forall j | i + 1 <= j < count
        ensures CountAfter(next[j], hw) == CountAfter(ports[j], hw)
      {
        CountAfterSame(next[j], ports[j], hw);
      }
    }
  }

  /** `child` is a port of one of the hubs `i..count-1` of the snapshot. */
  predicate PortOfSnapshotHub(ports: seq<Port>, i: nat, count: nat, hw: Hardware, child: Location)
    requires count <= |ports|
  {
    exists h :: i <= h < count && IsHubPort(ports[h], hw, child)
  }

  /**
   * Every entry the loop from `i` appends sits at a port `1..N` of a hub of
   * the snapshot from `i` on that reported N ports, at a location no other
   * entry has (the last clause of `Extends`).
   */
  lemma {:induction false} ExpandFromAppends(ports: seq<Port>, i: nat, count: nat, hw: Hardware)
    requires count <= |ports| && ExpandFrom(ports, i, count, hw).Some?
    ensures var r := ExpandFrom(ports, i, count, hw).value;
      Extends(ports, r) && forall j :: |ports| <= j < |r| ==> PortOfSnapshotHub(ports, i, count, hw, r[j].location)
    decreases count - i
  {
    if i < count {
      var next := VisitHub(ports, i, hw).value;
      VisitHubExtends(ports, i, hw);
      ExpandFromAppends(next, i + 1, count, hw);
      var r := ExpandFrom(next, i + 1, count, hw).value;
      ExtendsTransitive(ports, next, r);
      AppendsStep(ports, next, r, i, count, hw);
    }
  }

  /** One visit appends ports of hub `i`, the rest of the loop ports of the later hubs. */
  lemma AppendsStep(ports: seq<Port>, next: seq<Port>, r: seq<Port>, i: nat, count: nat, hw: Hardware)
    requires i < count <= |ports| && Extends(ports, next) && Extends(next, r)
    requires forall j :: |ports| <= j < |next| ==> IsHubPort(ports[i], hw, next[j].location)
    requires forall j :: |next| <= j < |r| ==> PortOfSnapshotHub(next, i + 1, count, hw, r[j].location)
    ensures forall j :: |ports| <= j < |r| ==> PortOfSnapshotHub(ports, i, count, hw, r[j].location)
  {
    forall j | |ports| <= j < |r|
      ensures PortOfSnapshotHub(ports, i, count, hw, r[j].location)
    {
      if j < |next| {
        assert SameEntry(next[j], r[j]);
        assert IsHubPort(ports[i], hw, r[j].location);
      } else {
        var h :| i + 1 <= h < count && IsHubPort(next[h], hw, r[j].location);
        assert SameEntry(ports[h], next[h]);
        assert IsHubPort(ports[h], hw, r[j].location);
      }
    }
  }

  /** A failing hub in the snapshot from `i` on makes the loop raise. */
  lemma {:induction false} ExpandFromFailsAt(ports: seq<Port>, i: nat, count: nat, hw: Hardware, j: nat)
    requires count <= |ports| && i <= j < count && HubFails(ports[j], hw)
    ensures ExpandFrom(ports, i, count, hw).None?
    decreases count - i
  {
    if j == i {
      VisitHubFails(ports, i, hw);
    } else if VisitHub(ports, i, hw).Some? {
      var next := VisitHub(ports, i, hw).value;
      VisitHubSpec(ports, i, hw);
      HubFailsExtends(ports, next, j, hw);
      ExpandFromFailsAt(next, i + 1, count, hw, j);
    }
  }

  /** When the loop from `i` raises, some snapshot hub from `i` on failed. */
  lemma {:induction false} ExpandFromFailure(ports: seq<Port>, i: nat, count: nat, hw: Hardware) returns (j: nat)
    requires count <= |ports| && ExpandFrom(ports, i, count, hw).None?
    ensures i <= j < count && HubFails(ports[j], hw)
    decreases count - i
  {
    if VisitHub(ports, i, hw).Some? {
      var next := VisitHub(ports, i, hw).value;
      VisitHubExtends(ports, i, hw);
      j := ExpandFromFailure(next, i + 1, count, hw);
      HubFailsExtends(ports, next, j, hw);
    } else {
      VisitHubFails(ports, i, hw);
      j := i;
    }
  }

  /** `update_hubs` raises exactly when some hub of the snapshot cannot be opened or has a status read raise. */
  lemma ExpandHubsFails(ports: seq<Port>, hw: Hardware)
    ensures ExpandHubs(ports, hw).None? <==> exists j :: 0 <= j < |ports| && HubFails(ports[j], hw)
  {
    if ExpandHubs(ports, hw).None? {
      var j := ExpandFromFailure(ports, 0, |ports|, hw);
    }
    forall j | 0 <= j < |ports| && HubFails(ports[j], hw)
      ensures ExpandHubs(ports, hw).None?
    {
      ExpandFromFailsAt(ports, 0, |ports|, hw, j);
    }
  }

  /** The hubs among the snapshot entries `i..count-1`: none of them is the parent of `loc`. */
  predicate NoLaterParent(ports: seq<Port>, i: nat, count: nat, loc: Location)
    requires count <= |ports|
  {
    forall j :: i <= j < count && IsHub(ports[j]) ==> !IsChildOf(loc, ports[j].location)
  }

  /** What is attached at a location no later hub is the parent of stays attached. */
  lemma {:induction false} ExpandFromPreserves(ports: seq<Port>, i: nat, count: nat, hw: Hardware,
                                               other: Location, otherStatus: string)
    requires count <= |ports| && ExpandFrom(ports, i, count, hw).Some?
    requires Attached(ports, other, otherStatus) && NoLaterParent(ports, i, count, other)
    ensures Attached(ExpandFrom(ports, i, count, hw).value, other, otherStatus)
    decreases count - i
  {
    if i < count {
      var next := VisitHub(ports, i, hw).value;
      VisitHubExtends(ports, i, hw);
      VisitHubPreserves(ports, i, hw, other, otherStatus);
      NoLaterParentExtends(ports, next, i + 1, count, other);
      ExpandFromPreserves(next, i + 1, count, hw, other, otherStatus);
    }
  }

  /** No two hubs of the snapshot share a location. */
  predicate DistinctHubs(ports: seq<Port>, count: nat)
    requires count <= |ports|
  {
    forall a, b :: 0 <= a < b < count && IsHub(ports[a]) && IsHub(ports[b]) ==> ports[a].location != ports[b].location
  }

  /** Extending a table keeps whether an old entry is a hub that fails. */
  lemma HubFailsExtends(a: seq<Port>, b: seq<Port>, j: nat, hw: Hardware)
    requires Extends(a, b) && j < |a|
    ensures HubFails(b[j], hw) == HubFails(a[j], hw)
  {
    assert SameEntry(a[j], b[j]);
  }

  /** Extending a table keeps its old hubs where they were. */
  lemma DistinctHubsExtends(a: seq<Port>, b: seq<Port>, count: nat)
    requires Extends(a, b) && count <= |a| && DistinctHubs(a, count)
    ensures DistinctHubs(b, count)
  {
    assert forall j :: 0 <= j < count ==> SameEntry(a[j], b[j]);
  }

  /** The port `k` of the hub at `h` is the child of no other hub of a table with distinct hubs. */
  lemma OnlyParent(ports: seq<Port>, h: nat, count: nat, k: nat)
    requires count <= |ports| && DistinctHubs(ports, count) && h < count && IsHub(ports[h])
    ensures NoLaterParent(ports, h + 1, count, ports[h].location + [k])
  {
    forall j | h + 1 <= j < count && IsHub(ports[j])
      ensures !IsChildOf(ports[h].location + [k], ports[j].location)
    {
      ChildOfOnly(ports[h].location, k, ports[j].location);
    }
  }

  /**
   * With distinct hub locations, every port `k` of a snapshot hub at index
   * `h` that reported a port count ends up carrying the status read from it.
   */
  lemma {:induction false} ExpandFromCovers(ports: seq<Port>, i: nat, count: nat, hw: Hardware, h: nat, k: nat)
    requires count <= |ports| && ExpandFrom(ports, i, count, hw).Some? && DistinctHubs(ports, count)
    requires i <= h < count && IsHub(ports[h]) && ReadNumPorts(hw, ports[h].device.value).Some?
    requires 1 <= k <= ReadNumPorts(hw, ports[h].device.value).value
    ensures ReadPortStatus(hw, ports[h].device.value, k).Some?
    ensures Attached(ExpandFrom(ports, i, count, hw).value, ports[h].location + [k],
                     ReadPortStatus(hw, ports[h].device.value, k).value)
    decreases count - i
  {
    if h == i {
      ExpandFromCoversHere(ports, i, count, hw, k);
    } else {
      var next := VisitHub(ports, i, hw).value;
      VisitHubExtends(ports, i, hw);
      DistinctHubsExtends(ports, next, count);
      assert SameEntry(ports[h], next[h]);
      ExpandFromCovers(next, i + 1, count, hw, h, k);
    }
  }

  /** The hub at `i` attaches the status of its port `k`, and the later hubs leave it in place. */
  lemma ExpandFromCoversHere(ports: seq<Port>, i: nat, count: nat, hw: Hardware, k: nat)
    requires count <= |ports| && ExpandFrom(ports, i, count, hw).Some? && DistinctHubs(ports, count)
    requires i < count && IsHub(ports[i]) && ReadNumPorts(hw, ports[i].device.value).Some?
    requires 1 <= k <= ReadNumPorts(hw, ports[i].device.value).value
    ensures ReadPortStatus(hw, ports[i].device.value, k).Some?
    ensures Attached(ExpandFrom(ports, i, count, hw).value, ports[i].location + [k],
                     ReadPortStatus(hw, ports[i].device.value, k).value)
  {
    var next := VisitHub(ports, i, hw).value;
    var loc := ports[i].location + [k];
    VisitHubExtends(ports, i, hw);
    VisitHubCovers(ports, i, hw, k);
    OnlyParent(ports, i, count, k);
    NoLaterParentExtends(ports, next, i + 1, count, loc);
    ExpandFromPreserves(next, i + 1, count, hw, loc, ReadPortStatus(hw, ports[i].device.value, k).value);
  }

  lemma NoLaterParentExtends(a: seq<Port>, b: seq<Port>, i: nat, count: nat, loc: Location)
    requires Extends(a, b) && count <= |a| && NoLaterParent(a, i, count, loc)
    ensures NoLaterParent(b, i, count, loc)
  {
    assert forall j :: i <= j < count ==> SameEntry(a[j], b[j]);
  }

  /** `update_hubs` on a table without hubs changes nothing. */
  lemma {:induction false} ExpandFromNoHubs(ports: seq<Port>, i: nat, count: nat, hw: Hardware)
    requires count <= |ports| && forall j :: i <= j < count ==> !IsHub(ports[j])
    ensures ExpandFrom(ports, i, count, hw) == Some(ports)
    decreases count - i
  {
    if i < count {
      ExpandFromNoHubs(ports, i + 1, count, hw);
    }
  }
}
