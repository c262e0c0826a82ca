/**
 * The `bus-port.port…[:suffix]` location text, the `/dev/bus/usb/BBB/AAA`
 * device-file path, and the tuple order the listing is sorted by.
 */
module Location {
  import opened Wrappers
  import opened Text

  /** `(bus,) + port_numbers`: the bus, then the hub port numbers from the root hub down. */
  type Location = seq<nat>

  // ---- parsing ----

  /** `tuple(int(d) for d in segments)`, failing if any segment is not a number. */
  function ParsePorts(segments: seq<string>): (r: Option<seq<nat>>)
    ensures r.Some? <==> forall i :: 0 <= i < |segments| ==> ParseDecimal(segments[i]).Some?
    ensures r.Some? ==> |r.value| == |segments|
    ensures r.Some? ==> forall i :: 0 <= i < |segments| ==> ParseDecimal(segments[i]) == Some(r.value[i])
    decreases |segments|
  {
    if segments == [] then Some([])
    else match ParseDecimal(segments[0])
      case None => None
      case Some(p) =>
        match ParsePorts(segments[1..])
        case None => None
        case Some(ps) => Some([p] + ps)
  }

  /** The part of `parse_location` after stripping and cutting the suffix. */
  function ParseAddress(address: string): (r: Result<Location>)
  {
    var (bus, portText) := Partition(address, '-');
    match ParseDecimal(bus)
    case None => Failure(BadLocation)
    case Some(b) =>
      match ParsePorts(Split(portText, '.'))
      case None => Failure(BadLocation)
      case Some(ports) => Success([b] + ports)
  }

  /**
   * `parse_location`: strip whitespace, drop everything from the first ':',
   * take the bus before the first '-' and the '.'-separated ports after it.
   * A successful parse always names at least one port.
   */
  function ParseLocation(text: string): (r: Result<Location>)
    ensures r.Success? ==> |r.value| >= 2
    ensures r.Failure? ==> r.error == BadLocation
  {
    ParseAddress(Head(Strip(text), ':'))
  }

  /** A text with nothing after its first '-' (`"1"`, `"1-"`, `"1-:x"`) is refused. */
  lemma ParseLocationNeedsPort(text: string)
    requires Partition(Head(Strip(text), ':'), '-').1 == ""
    ensures ParseLocation(text) == Failure(BadLocation)
  {
    assert Split("", '.') == [""];
    assert ParseDecimal("") == None;
  }

  // ---- formatting ----

  /** `'%02d' % port`. */
  function PortField(port: nat): (s: string)
    ensures |s| >= 2 && forall i :: 0 <= i < |s| ==> IsDigit(s[i])
  {
    ZeroPad(NatDigits(port, 10), 2)
  }

  function PortFields(ports: seq<nat>): seq<string> {
    seq(|ports|, i requires 0 <= i < |ports| => PortField(ports[i]))
  }

  /**
   * The address column of the listing: the bus in decimal, then, when there
   * are ports, '-' and the ports as two-digit fields joined by '.'.
   */
  function FormatAddress(loc: Location): (r: string)
    requires |loc| >= 1
  {
    var portNumbers := Join(PortFields(loc[1..]), '.');
    if portNumbers != "" then NatDigits(loc[0], 10) + "-" + portNumbers else NatDigits(loc[0], 10)
  }

  /** Every character of a join of digit strings is a digit or the separator. */
  lemma {:induction false} JoinDigits(parts: seq<string>, sep: char)
    requires forall i, k :: 0 <= i < |parts| && 0 <= k < |parts[i]| ==> IsDigit(parts[i][k])
    ensures forall k :: 0 <= k < |Join(parts, sep)| ==> IsDigit(Join(parts, sep)[k]) || Join(parts, sep)[k] == sep
    ensures |parts| >= 1 ==> parts[0] <= Join(parts, sep)
    ensures |parts| >= 1 && parts[|parts| - 1] != [] ==> Join(parts, sep) != [] && IsDigit(Join(parts, sep)[|Join(parts, sep)| - 1])
    decreases |parts|
  {
    if |parts| > 1 {
      JoinDigits(parts[1..], sep);
      var rest := Join(parts[1..], sep);
      assert Join(parts, sep) == parts[0] + [sep] + rest;
      assert parts[1..][|parts[1..]| - 1] == parts[|parts| - 1];
    }
  }

  /** What the formatter prints for a location with ports: digits, '-', '.', ending in a digit. */
  lemma FormatAddressShape(loc: Location)
    requires |loc| >= 2
    ensures var fields := PortFields(loc[1..]);
      FormatAddress(loc) == NatDigits(loc[0], 10) + "-" + Join(fields, '.')
      && '-' !in NatDigits(loc[0], 10)
      && (forall k :: 0 <= k < |Join(fields, '.')| ==> IsDigit(Join(fields, '.')[k]) || Join(fields, '.')[k] == '.')
      && Join(fields, '.') != [] && IsDigit(Join(fields, '.')[|Join(fields, '.')| - 1])
  {
    var fields := PortFields(loc[1..]);
    JoinDigits(fields, '.');
  }

  /** The printed address splits at its '-' into the bus digits and the port fields. */
  lemma FormatAddressSplits(loc: Location)
    requires |loc| >= 2
    ensures Partition(FormatAddress(loc), '-') == (NatDigits(loc[0], 10), Join(PortFields(loc[1..]), '.'))
    ensures Split(Join(PortFields(loc[1..]), '.'), '.') == PortFields(loc[1..])
  {
    var bus := NatDigits(loc[0], 10);
    var fields := PortFields(loc[1..]);
    var portText := Join(fields, '.');
    var a := FormatAddress(loc);
    assert Partition(a, '-') == (bus, portText) by {
      FormatAddressShape(loc);
      IndexOfAfter(bus, '-', portText);
      assert a[..|bus|] == bus && a[|bus| + 1..] == portText;
    }
    assert forall i :: 0 <= i < |fields| ==> '.' !in fields[i] by {
      forall i | 0 <= i < |fields| ensures '.' !in fields[i] {
        assert forall k :: 0 <= k < |fields[i]| ==> IsDigit(fields[i][k]);
      }
    }
    SplitJoin(fields, '.');
  }

  lemma ParseFormatAddress(loc: Location)
    requires |loc| >= 2
    ensures ParseAddress(FormatAddress(loc)) == Success(loc)
  {
    FormatAddressSplits(loc);
    DigitsValueOfNatDigits(loc[0]);
    ParsePortFields(loc[1..]);
    assert [loc[0]] + loc[1..] == loc;
  }

  /** The two-digit port fields read back as the ports. */
  lemma ParsePortFields(ports: seq<nat>)
    ensures ParsePorts(PortFields(ports)) == Some(ports)
  {
    var fields := PortFields(ports);
    forall i | 0 <= i < |fields|
      ensures ParseDecimal(fields[i]) == Some(ports[i])
    {
      ParseDecimalPadded(ports[i], 2);
    }
    var r := ParsePorts(fields);
    assert r.value == ports;
  }

  /** Round trip: the printed address of a location with ports parses back to it. */
  lemma ParseLocationFormat(loc: Location)
    requires |loc| >= 2
    ensures ParseLocation(FormatAddress(loc)) == Success(loc)
  {
    FormatAddressShape(loc);
    var a := FormatAddress(loc);
    StripUnpadded(a);
    assert ':' !in a;
    ParseFormatAddress(loc);
  }

  /** Stripping and cutting at the first ':' leaves a trimmed, colon-free prefix intact. */
  lemma HeadOfSuffixed(a: string, suffix: string)
    requires a != [] && !IsSpace(a[0]) && !IsSpace(a[|a| - 1]) && ':' !in a
    ensures Head(Strip(a + ":" + suffix), ':') == a
  {
    var text := a + ":" + suffix;
    assert StripLeft(text) == text;
    StripRightAppend(a + ":", suffix);
    assert Strip(text) == a + [':'] + StripRight(suffix);
    IndexOfAfter(a, ':', StripRight(suffix));
  }

  /** The parser ignores a `:suffix` after a printed address, whatever the suffix holds. */
  lemma ParseLocationSuffix(loc: Location, suffix: string)
    requires |loc| >= 2
    ensures ParseLocation(FormatAddress(loc) + ":" + suffix) == Success(loc)
  {
    FormatAddressShape(loc);
    HeadOfSuffixed(FormatAddress(loc), suffix);
    ParseFormatAddress(loc);
  }

  /** A bus-only location (a root hub) prints as the bare bus number, which does not parse. */
  lemma BusOnlyNotParsed(bus: nat)
    ensures FormatAddress([bus]) == NatDigits(bus, 10)
    ensures ParseLocation(FormatAddress([bus])) == Failure(BadLocation)
  {
    var a := NatDigits(bus, 10);
    assert PortFields([bus][1..]) == [];
    StripUnpadded(a);
    assert ':' !in a && '-' !in a;
    ParseLocationNeedsPort(a);
  }

  /** Parsing then printing then parsing again is parsing once: printing normalises. */
  lemma ParseLocationNormalises(text: string)
    requires ParseLocation(text).Success?
    ensures ParseLocation(FormatAddress(ParseLocation(text).value)) == ParseLocation(text)
  {
    ParseLocationFormat(ParseLocation(text).value);
  }

  // ---- device file ----

  const DeviceDir := "/dev/bus/usb/"

  /** `usb_filename`: the usbfs node of the device at `bus`/`address`, both as `%03d`. */
  function UsbFilename(bus: nat, address: nat): (path: string)
    ensures DeviceDir <= path
  {
    DeviceDir + ZeroPad(NatDigits(bus, 10), 3) + "/" + ZeroPad(NatDigits(address, 10), 3)
  }

  /** Reads a usbfs path back into its bus and device address. */
  function ParseUsbFilename(path: string): Option<(nat, nat)>
  {
    if |path| < |DeviceDir| || path[..|DeviceDir|] != DeviceDir then None
    else
      var parts := Split(path[|DeviceDir|..], '/');
      if |parts| != 2 then None
      else match (ParseDecimal(parts[0]), ParseDecimal(parts[1]))
        case (Some(bus), Some(address)) => Some((bus, address))
        case _ => None
  }

  /** Two separator-free pieces joined by one separator split back into the two. */
  lemma SplitPair(x: string, y: string, sep: char)
    requires sep !in x && sep !in y
    ensures Split(x + [sep] + y, sep) == [x, y]
  {
    assert Join([x, y], sep) == x + [sep] + y by {
      assert [x, y][1..] == [y];
    }
    SplitJoin([x, y], sep);
  }

  /** A string of digits contains no character that is not a digit. */
  lemma DigitsExclude(s: string, c: char)
    requires forall i :: 0 <= i < |s| ==> IsDigit(s[i])
    requires !IsDigit(c)
    ensures c !in s
  {
  }

  /** A path under the device directory made of two '/'-free names splits back into them. */
  lemma DevicePathSplits(b: string, a: string)
    requires '/' !in b && '/' !in a
    ensures var path := DeviceDir + b + "/" + a;
      |DeviceDir| <= |path| && path[..|DeviceDir|] == DeviceDir && Split(path[|DeviceDir|..], '/') == [b, a]
  {
    var path := DeviceDir + b + "/" + a;
    assert path == DeviceDir + (b + ['/'] + a);
    assert path[|DeviceDir|..] == b + ['/'] + a;
    SplitPair(b, a, '/');
  }

  /** The path after the directory is the two zero-padded numbers around a single '/'. */
  lemma UsbFilenameSplits(bus: nat, address: nat)
    ensures var path := UsbFilename(bus, address);
      |DeviceDir| <= |path| && path[..|DeviceDir|] == DeviceDir
      && Split(path[|DeviceDir|..], '/') == [ZeroPad(NatDigits(bus, 10), 3), ZeroPad(NatDigits(address, 10), 3)]
  {
    var b, a := ZeroPad(NatDigits(bus, 10), 3), ZeroPad(NatDigits(address, 10), 3);
    DigitsExclude(b, '/');
    DigitsExclude(a, '/');
    DevicePathSplits(b, a);
  }

  lemma UsbFilenameRoundTrip(bus: nat, address: nat)
    ensures ParseUsbFilename(UsbFilename(bus, address)) == Some((bus, address))
  {
    UsbFilenameSplits(bus, address);
    ParseDecimalPadded(bus, 3);
    ParseDecimalPadded(address, 3);
  }

  /** Distinct devices never share a device file. */
  lemma UsbFilenameInjective(bus1: nat, address1: nat, bus2: nat, address2: nat)
    requires UsbFilename(bus1, address1) == UsbFilename(bus2, address2)
    ensures bus1 == bus2 && address1 == address2
  {
    UsbFilenameRoundTrip(bus1, address1);
    UsbFilenameRoundTrip(bus2, address2);
  }

  // ---- order ----

  /** Python's `<` on int tuples: lexicographic, a proper prefix first. */
  predicate Less(a: Location, b: Location)
    decreases |a|
  {
    if a == [] then b != []
    else b != [] && (a[0] < b[0] || (a[0] == b[0] && Less(a[1..], b[1..])))
  }

  predicate LessEq(a: Location, b: Location) {
    a == b || Less(a, b)
  }

  lemma {:induction false} LessIrreflexive(a: Location)
    ensures !Less(a, a)
    decreases |a|
  {
    if a != [] {
      LessIrreflexive(a[1..]);
    }
  }

  lemma {:induction false} LessTransitive(a: Location, b: Location, c: Location)
    requires Less(a, b) && Less(b, c)
    ensures Less(a, c)
    decreases |a|
  {
    if a != [] && a[0] == b[0] && b[0] == c[0] {
      LessTransitive(a[1..], b[1..], c[1..]);
    }
  }

  lemma {:induction false} LessTotal(a: Location, b: Location)
    ensures Less(a, b) || a == b || Less(b, a)
    decreases |a|
  {
    if a != [] && b != [] && a[0] == b[0] {
      LessTotal(a[1..], b[1..]);
      if a[1..] == b[1..] {
        assert a == [a[0]] + a[1..] && b == [b[0]] + b[1..];
      }
    }
  }

  lemma {:induction false} LessAsymmetric(a: Location, b: Location)
    requires Less(a, b)
    ensures !Less(b, a)
  {
    if Less(b, a) {
      LessTransitive(a, b, a);
      LessIrreflexive(a);
    }
  }

  /** A hub's location sorts before the locations of everything behind it. */
  lemma {:induction false} PrefixSortsFirst(a: Location, b: Location)
    requires |a| < |b| && a == b[..|a|]
    ensures Less(a, b)
    decreases |a|
  {
    if a != [] {
      assert a[1..] == b[1..][..|a| - 1];
      PrefixSortsFirst(a[1..], b[1..]);
    }
  }

  /** The ordering example: `1`, `1-01`, `1-01.01`, `1-02`, `2`. */
  lemma OrderExample()
    ensures Less([1], [1, 1]) && Less([1, 1], [1, 1, 1]) && Less([1, 1, 1], [1, 2]) && Less([1, 2], [2])
  {
    assert [1, 1][1..] == [1];
    assert [1, 1, 1][1..] == [1, 1];
    assert [1, 2][1..] == [2];
  }
}
