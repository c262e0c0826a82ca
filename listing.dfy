/**
 * `describe_ports`: the table sorted by location, then one fixed-column
 * line per entry that is not a hub — address, status letters, vendor and
 * product ids, and a label made of the name, maker, product and serial.
 */
module Listing {
  import opened Wrappers
  import opened Text
  import opened Location
  import opened HubProtocol
  import opened Topology

  // ---- the sort ----

  /** `x` placed after every entry whose location is not greater than its own. */
  function Insert(sorted: seq<Port>, x: Port): (r: seq<Port>)
    ensures |r| == |sorted| + 1
    decreases |sorted|
  {
    if sorted == [] || Less(x.location, sorted[0].location) then [x] + sorted
    else [sorted[0]] + Insert(sorted[1..], x)
  }

  /** `ports.sort(key=lambda d: d['location'])`: a stable sort, here by insertion. */
  function SortByLocation(ports: seq<Port>): (r: seq<Port>)
    ensures |r| == |ports|
    decreases |ports|
  {
    if ports == [] then [] else Insert(SortByLocation(ports[..|ports| - 1]), ports[|ports| - 1])
  }

  /** Neighbouring entries in location order. */
  predicate SortedByLocation(s: seq<Port>) {
    forall i :: 0 < i < |s| ==> LessEq(s[i - 1].location, s[i].location)
  }

  lemma {:induction false} InsertSorted(sorted: seq<Port>, x: Port)
    requires SortedByLocation(sorted)
    ensures SortedByLocation(Insert(sorted, x))
    ensures multiset(Insert(sorted, x)) == multiset(sorted) + multiset{x}
    decreases |sorted|
  {
    if sorted != [] && !Less(x.location, sorted[0].location) {
      var rest := Insert(sorted[1..], x);
      InsertSorted(sorted[1..], x);
      LessTotal(x.location, sorted[0].location);
      assert rest[0] == x || rest[0] == sorted[1];
      assert sorted == [sorted[0]] + sorted[1..];
    }
  }

  /** The sort orders the table by location and keeps every entry, as often as it occurs. */
  lemma {:induction false} SortByLocationSpec(ports: seq<Port>)
    ensures SortedByLocation(SortByLocation(ports))
    ensures multiset(SortByLocation(ports)) == multiset(ports)
    decreases |ports|
  {
    if ports != [] {
      var init := ports[..|ports| - 1];
      SortByLocationSpec(init);
      InsertSorted(SortByLocation(init), ports[|ports| - 1]);
      assert ports == init + [ports[|ports| - 1]];
    }
  }

  /** Every entry of the sorted table is an entry of the table. */
  lemma SortByLocationMembers(ports: seq<Port>)
    ensures forall i :: 0 <= i < |SortByLocation(ports)| ==> SortByLocation(ports)[i] in ports
  {
    SortByLocationSpec(ports);
    assert forall i :: 0 <= i < |SortByLocation(ports)| ==> SortByLocation(ports)[i] in multiset(ports);
  }

  /** In a sorted table every entry is at or before every later one. */
  lemma {:induction false} SortedPairs(s: seq<Port>, i: nat, j: nat)
    requires SortedByLocation(s) && i <= j < |s|
    ensures LessEq(s[i].location, s[j].location)
    decreases j - i
  {
    if i < j {
      SortedPairs(s, i, j - 1);
      if s[i].location != s[j - 1].location && s[j - 1].location != s[j].location {
        LessTransitive(s[i].location, s[j - 1].location, s[j].location);
      }
    }
  }

  /** The entries of `s` at location `loc`, in order. */
  function At(s: seq<Port>, loc: Location): (r: seq<Port>)
    ensures |r| <= |s|
    decreases |s|
  {
    if s == [] then []
    else At(s[..|s| - 1], loc) + (if s[|s| - 1].location == loc then [s[|s| - 1]] else [])
  }

  lemma {:induction false} AtCons(x: Port, s: seq<Port>, loc: Location)
    ensures At([x] + s, loc) == (if x.location == loc then [x] else []) + At(s, loc)
    decreases |s|
  {
    if s != [] {
      var t := [x] + s;
      assert t[..|t| - 1] == [x] + s[..|s| - 1];
      AtCons(x, s[..|s| - 1], loc);
    }
  }

  /** No entry of a table sorted after `loc` sits at `loc`. */
  lemma {:induction false} AtAfter(s: seq<Port>, loc: Location)
    requires SortedByLocation(s) && s != [] && Less(loc, s[0].location)
    ensures At(s, loc) == []
    decreases |s|
  {
    var init := s[..|s| - 1];
    SortedPairs(s, 0, |s| - 1);
    if s[|s| - 1].location == loc {
      LessIrreflexive(loc);
      if s[0].location != loc {
        LessTransitive(loc, s[0].location, loc);
      }
    }
    if init != [] {
      AtAfter(init, loc);
    }
  }

  lemma {:induction false} InsertAt(sorted: seq<Port>, x: Port, loc: Location)
    requires SortedByLocation(sorted)
    ensures At(Insert(sorted, x), loc) == At(sorted, loc) + (if x.location == loc then [x] else [])
    decreases |sorted|
  {
    if sorted == [] {
      assert Insert(sorted, x) == [x];
    } else if Less(x.location, sorted[0].location) {
      AtCons(x, sorted, loc);
      if x.location == loc {
        AtAfter(sorted, loc);
      }
    } else {
      InsertAt(sorted[1..], x, loc);
      assert Insert(sorted, x) == [sorted[0]] + Insert(sorted[1..], x);
      assert [sorted[0]] + sorted[1..] == sorted;
      AtConsBoth(sorted[0], Insert(sorted[1..], x), sorted[1..], loc, if x.location == loc then [x] else []);
    }
  }

  lemma AtConsBoth(h: Port, a: seq<Port>, b: seq<Port>, loc: Location, tail: seq<Port>)
    requires At(a, loc) == At(b, loc) + tail
    ensures At([h] + a, loc) == At([h] + b, loc) + tail
  {
    AtCons(h, a, loc);
    AtCons(h, b, loc);
  }

  /** The sort is stable: the entries at any one location keep their relative order. */
  lemma {:induction false} SortByLocationStable(ports: seq<Port>, loc: Location)
    ensures At(SortByLocation(ports), loc) == At(ports, loc)
    decreases |ports|
  {
    if ports != [] {
      var init := ports[..|ports| - 1];
      SortByLocationStable(init, loc);
      SortByLocationSpec(init);
      InsertAt(SortByLocation(init), ports[|ports| - 1], loc);
    }
  }

  // ---- the columns ----

  /** `f'{v:04x}'`: at least four lower-case hex digits. */
  function HexField(v: nat): string {
    ZeroPad(NatDigits(v, 16), 4)
  }

  /** A number below `16^k` takes at most `k` hex digits. */
  lemma {:induction false} HexDigitsBound(n: nat, k: nat)
    requires 1 <= k && n < Pow16(k)
    ensures |NatDigits(n, 16)| <= k
    decreases k
  {
    if n >= 16 {
      assert k > 1;
      HexDigitsBound(n / 16, k - 1);
    }
  }

  function Pow16(k: nat): nat {
    if k == 0 then 1 else 16 * Pow16(k - 1)
  }

  /** A 16-bit id prints as exactly four hex digits. */
  lemma HexFieldLength(v: U16)
    ensures |HexField(v)| == 4
  {
    assert Pow16(4) == 0x1_0000;
    HexDigitsBound(v, 4);
  }

  /** `':'.join(f'{d:04x}' for d in vidpid) if vidpid else ''`. */
  function VidPidText(p: Port): string {
    if p.device.Some? then HexField(p.device.value.vendorId) + ":" + HexField(p.device.value.productId) else ""
  }

  /** The status column: the letters in brackets, empty brackets when there are none. */
  function StatusText(p: Port): (r: string)
    ensures |r| >= 2 && r[0] == '[' && r[|r| - 1] == ']'
    ensures r[1..|r| - 1] == if p.portStatus.Some? then p.portStatus.value else ""
  {
    "[" + (if p.portStatus.Some? then p.portStatus.value else "") + "]"
  }

  /**
   * The label: the product (empty for an entry without a device, '?' for a
   * device without a product string), then ' (serial)', preceded by the
   * maker and a space, preceded by the serial port name and ' - '.
   */
  function Label(p: Port): string {
    var product :=
      if p.device.None? then ""
      else if Truthy(p.device.value.product) then p.device.value.product.value
      else "?";
    var withSerial :=
      if p.device.Some? && Truthy(p.device.value.serialNumber)
      then product + " (" + p.device.value.serialNumber.value + ")" else product;
    var withMaker :=
      if p.device.Some? && Truthy(p.device.value.manufacturer)
      then p.device.value.manufacturer.value + " " + withSerial else withSerial;
    if Truthy(p.name) then p.name.value + " - " + withMaker else withMaker
  }

  /** One line of the listing. */
  function FormatLine(p: Port): string
    requires |p.location| >= 1
  {
    PadRight(FormatAddress(p.location), 13) + " " + PadRight(StatusText(p), 5) + " " + VidPidText(p) + " " + Label(p)
  }

  /** A device with every string present is labelled `name - maker product (serial)`. */
  lemma LabelOrder(p: Port)
    requires p.device.Some? && Truthy(p.name)
    requires Truthy(p.device.value.product) && Truthy(p.device.value.serialNumber) && Truthy(p.device.value.manufacturer)
    ensures var d := p.device.value;
      Label(p) == p.name.value + " - " + d.manufacturer.value + " " + d.product.value + " (" + d.serialNumber.value + ")"
  {
  }

  /** A device without a product string shows '?' in its place. */
  lemma LabelUnknownProduct(p: Port)
    requires p.device.Some? && !Truthy(p.device.value.product)
    requires !Truthy(p.name) && !Truthy(p.device.value.serialNumber) && !Truthy(p.device.value.manufacturer)
    ensures Label(p) == "?"
  {
  }

  /** An empty hub port shows no product at all, only the serial port name if one was matched. */
  lemma LabelOfEmptyPort(p: Port)
    requires p.device.None?
    ensures Label(p) == if Truthy(p.name) then p.name.value + " - " else ""
    ensures VidPidText(p) == ""
  {
  }

  /**
   * The columns line up: a 13-character address column, a space, a
   * 5-character status column, a space, then the ids and the label.
   */
  lemma LineColumns(p: Port)
    requires |p.location| >= 1 && |FormatAddress(p.location)| <= 13 && |StatusText(p)| <= 5
    ensures var line := FormatLine(p);
      |line| >= 20
      && line[..13] == PadRight(FormatAddress(p.location), 13) && line[13] == ' '
      && line[14..19] == PadRight(StatusText(p), 5) && line[19] == ' '
      && line[20..] == VidPidText(p) + " " + Label(p)
  {
    var a := PadRight(FormatAddress(p.location), 13);
    var s := PadRight(StatusText(p), 5);
    var line := FormatLine(p);
    assert line == a + " " + s + " " + (VidPidText(p) + " " + Label(p));
  }

  /** For an entry with a device the ids take nine characters, `vvvv:pppp`. */
  lemma VidPidWidth(p: Port)
    requires p.device.Some?
    ensures |VidPidText(p)| == 9 && VidPidText(p)[4] == ':'
  {
    HexFieldLength(p.device.value.vendorId);
    HexFieldLength(p.device.value.productId);
  }

  // ---- the lines ----

  /** The entries of `s` that are not hubs, in order. */
  function NonHubs(s: seq<Port>): (r: seq<Port>)
    ensures |r| <= |s|
    decreases |s|
  {
    if s == [] then []
    else NonHubs(s[..|s| - 1]) + (if IsHub(s[|s| - 1]) then [] else [s[|s| - 1]])
  }

  /** The line loop over `s`, which must be sorted already. */
  function Lines(s: seq<Port>): (r: seq<string>)
    requires forall i :: 0 <= i < |s| ==> |s[i].location| >= 1
    decreases |s|
  {
    if s == [] then []
    else Lines(s[..|s| - 1]) + (if IsHub(s[|s| - 1]) then [] else [FormatLine(s[|s| - 1])])
  }

  /** One more entry adds its line, unless it is a hub. */
  lemma LinesStep(s: seq<Port>, i: nat)
    requires forall k :: 0 <= k < |s| ==> |s[k].location| >= 1
    requires i < |s|
    ensures Lines(s[..i + 1]) == Lines(s[..i]) + (if IsHub(s[i]) then [] else [FormatLine(s[i])])
  {
    assert s[..i + 1][..i] == s[..i];
  }

  /** `describe_ports(ports)`: the lines of the sorted table. */
  function DescribeLines(ports: seq<Port>): seq<string>
    requires forall i :: 0 <= i < |ports| ==> |ports[i].location| >= 1
  {
    SortByLocationMembers(ports);
    Lines(SortByLocation(ports))
  }

  /** The non-hub entries are exactly the entries of `s` that are not hubs, each as often as it occurs there. */
  lemma {:induction false} NonHubsSpec(s: seq<Port>)
    ensures forall i :: 0 <= i < |NonHubs(s)| ==> !IsHub(NonHubs(s)[i])
    ensures forall p :: !IsHub(p) ==> multiset(NonHubs(s))[p] == multiset(s)[p]
    decreases |s|
  {
    if s != [] {
      var init := s[..|s| - 1];
      NonHubsSpec(init);
      assert s == init + [s[|s| - 1]];
    }
  }

  /** Dropping entries keeps a table sorted. */
  lemma {:induction false} NonHubsSorted(s: seq<Port>)
    requires SortedByLocation(s)
    ensures SortedByLocation(NonHubs(s))
    ensures NonHubs(s) != [] ==> LessEq(NonHubs(s)[|NonHubs(s)| - 1].location, s[|s| - 1].location)
    decreases |s|
  {
    if s != [] {
      var init := s[..|s| - 1];
      assert SortedByLocation(init);
      NonHubsSorted(init);
      var r := NonHubs(init);
      if r != [] {
        var last := r[|r| - 1].location;
        if last != init[|init| - 1].location && init[|init| - 1].location != s[|s| - 1].location {
          LessTransitive(last, init[|init| - 1].location, s[|s| - 1].location);
        }
      }
    }
  }

  /** Line `k` is the line of the `k`-th non-hub entry: one line per entry that is not a hub, none for hubs. */
  lemma {:induction false} LinesOfNonHubs(s: seq<Port>)
    requires forall i :: 0 <= i < |s| ==> |s[i].location| >= 1
    ensures |Lines(s)| == |NonHubs(s)|
    ensures forall k :: 0 <= k < |Lines(s)| ==> |NonHubs(s)[k].location| >= 1 && Lines(s)[k] == FormatLine(NonHubs(s)[k])
    decreases |s|
  {
    if s != [] {
      LinesOfNonHubs(s[..|s| - 1]);
    }
  }

  /**
   * The listing has one line per entry that is not a hub, for each such
   * entry as often as it occurs, in location order.
   */
  lemma DescribeLinesSpec(ports: seq<Port>)
    requires forall i :: 0 <= i < |ports| ==> |ports[i].location| >= 1
    ensures var shown := NonHubs(SortByLocation(ports));
      |DescribeLines(ports)| == |shown|
      && SortedByLocation(shown)
      && (forall p :: !IsHub(p) ==> multiset(shown)[p] == multiset(ports)[p])
      && forall k :: 0 <= k < |shown| ==> |shown[k].location| >= 1 && DescribeLines(ports)[k] == FormatLine(shown[k])
  {
    var sorted := SortByLocation(ports);
    SortByLocationSpec(ports);
    assert forall i :: 0 <= i < |sorted| ==> sorted[i] in multiset(ports);
    LinesOfNonHubs(sorted);
    NonHubsSorted(sorted);
    NonHubsSpec(sorted);
  }
}
