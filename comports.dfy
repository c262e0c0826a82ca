/**
 * `update_comports`: every serial port pyserial reports with a USB vendor
 * and product id is matched, by its parsed location, to the first table
 * entry at that location, whose name it extends.
 */
module Comports {
  import opened Wrappers
  import opened Text
  import opened Location
  import opened Topology

  /** What pyserial reports about one serial port. */
  datatype ComPort = ComPort(vid: Option<nat>, pid: Option<nat>, location: string, name: string)

  /** Only ports with both a vendor and a product id are USB ports worth matching. */
  predicate IsUsbComPort(info: ComPort) {
    info.vid.Some? && info.pid.Some?
  }

  /** The new name of an entry: the port name after a space when the entry already has a non-empty name. */
  function AppendName(current: Option<string>, name: string): (r: string)
    ensures |r| >= |name| && r[|r| - |name|..] == name
    ensures Truthy(current) ==>
              |r| == |current.value| + 1 + |name| && r[..|current.value|] == current.value && r[|current.value|] == ' '
    ensures !Truthy(current) ==> r == name
  {
    if Truthy(current) then current.value + " " + name else name
  }

  /** The entry index one serial port names, if its location parses and some entry sits there. */
  function Target(ports: seq<Port>, info: ComPort): (r: Option<nat>)
    ensures r.Some? ==> r.value < |ports|
    ensures r.Some? <==>
              IsUsbComPort(info) && ParseLocation(info.location).Success? && Find(ports, ParseLocation(info.location).value).Some?
  {
    if IsUsbComPort(info) && ParseLocation(info.location).Success? then Find(ports, ParseLocation(info.location).value)
    else None
  }

  /** One iteration of the loop: a BadLocation failure when the location does not parse. */
  function NameOnto(ports: seq<Port>, info: ComPort): (r: Result<seq<Port>>)
  {
    if !IsUsbComPort(info) then Success(ports)
    else match ParseLocation(info.location)
      case Failure(e) => Failure(e)
      case Success(loc) =>
        match Find(ports, loc)
        case None => Success(ports)
        case Some(j) => Success(ports[j := ports[j].(name := Some(AppendName(ports[j].name, info.name)))])
  }

  /** `update_comports(ports)` over the serial ports `infos`, in their order. */
  function UpdateComports(ports: seq<Port>, infos: seq<ComPort>): (r: Result<seq<Port>>)
    decreases |infos|
  {
    if infos == [] then Success(ports)
    else match NameOnto(ports, infos[0])
      case Failure(e) => Failure(e)
      case Success(next) => UpdateComports(next, infos[1..])
  }

  /** Same entries apart from their names. */
  predicate OnlyNames(before: seq<Port>, after: seq<Port>) {
    |before| == |after|
    && forall i :: 0 <= i < |before| ==>
         after[i] == before[i].(name := after[i].name)
  }

  /** One iteration names at most the target entry and changes nothing else. */
  lemma NameOntoSpec(ports: seq<Port>, info: ComPort)
    ensures NameOnto(ports, info).Failure? <==> IsUsbComPort(info) && ParseLocation(info.location).Failure?
    ensures NameOnto(ports, info).Success? ==>
      var r := NameOnto(ports, info).value;
      OnlyNames(ports, r)
      && forall i :: 0 <= i < |ports| ==>
           r[i].name == if Target(ports, info) == Some(i) then Some(AppendName(ports[i].name, info.name)) else ports[i].name
  {
    if IsUsbComPort(info) && ParseLocation(info.location).Success? {
      var loc := ParseLocation(info.location).value;
      if Find(ports, loc).Some? {
        var j := Find(ports, loc).value;
        var r := ports[j := ports[j].(name := Some(AppendName(ports[j].name, info.name)))];
        assert NameOnto(ports, info) == Success(r);
        assert Target(ports, info) == Some(j);
      }
    }
  }

  /** The names of the serial ports, in order, that land on entry `j`. */
  function MatchedNames(ports: seq<Port>, infos: seq<ComPort>, j: nat): (names: seq<string>)
    ensures names == [] <==> forall i :: 0 <= i < |infos| ==> Target(ports, infos[i]) != Some(j)
    decreases |infos|
  {
    if infos == [] then []
    else (if Target(ports, infos[0]) == Some(j) then [infos[0].name] else []) + MatchedNames(ports, infos[1..], j)
  }

  /** The name an entry ends up with when the non-empty `names` are appended to it one by one. */
  function Named(current: Option<string>, names: seq<string>): Option<string> {
    if names == [] then current
    else if Truthy(current) then Some(current.value + " " + Join(names, ' '))
    else Some(Join(names, ' '))
  }

  /** Appending one non-empty name, then the rest, is appending them all. */
  lemma NamedStep(current: Option<string>, name: string, rest: seq<string>)
    requires name != ""
    ensures Named(Some(AppendName(current, name)), rest) == Named(current, [name] + rest)
  {
    var all := [name] + rest;
    assert all[0] == name && all[1..] == rest;
    if rest != [] {
      assert Join(all, ' ') == name + [' '] + Join(rest, ' ');
      if Truthy(current) {
        assert current.value + " " + name + " " + Join(rest, ' ') == current.value + " " + (name + [' '] + Join(rest, ' '));
      }
    } else {
      assert all == [name];
    }
  }

  /** Only the locations of the table decide where each serial port lands. */
  lemma {:induction false} MatchedNamesSameLocations(a: seq<Port>, b: seq<Port>, infos: seq<ComPort>, j: nat)
    requires OnlyNames(a, b)
    ensures MatchedNames(a, infos, j) == MatchedNames(b, infos, j)
    decreases |infos|
  {
    if infos != [] {
      var info := infos[0];
      if IsUsbComPort(info) && ParseLocation(info.location).Success? {
        FindSameLocations(a, b, ParseLocation(info.location).value);
      }
      MatchedNamesSameLocations(a, b, infos[1..], j);
    }
  }

  lemma OnlyNamesTransitive(a: seq<Port>, b: seq<Port>, c: seq<Port>)
    requires OnlyNames(a, b) && OnlyNames(b, c)
    ensures OnlyNames(a, c)
  {
  }

  /**
   * After the loop every entry keeps everything but its name, and its name
   * is the old one followed by the names of the serial ports located at it,
   * space-separated, in pyserial's order.
   */
  lemma {:induction false} UpdateComportsNames(ports: seq<Port>, infos: seq<ComPort>)
    requires UpdateComports(ports, infos).Success?
    requires forall i :: 0 <= i < |infos| ==> infos[i].name != ""
    ensures var r := UpdateComports(ports, infos).value;
      OnlyNames(ports, r)
      && forall j :: 0 <= j < |ports| ==> r[j].name == Named(ports[j].name, MatchedNames(ports, infos, j))
    decreases |infos|
  {
    if infos != [] {
      var info := infos[0];
      NameOntoSpec(ports, info);
      var next := NameOnto(ports, info).value;
      UpdateComportsNames(next, infos[1..]);
      var r := UpdateComports(next, infos[1..]).value;
      OnlyNamesTransitive(ports, next, r);
      forall j | 0 <= j < |ports|
        ensures r[j].name == Named(ports[j].name, MatchedNames(ports, infos, j))
      {
        MatchedNamesSameLocations(ports, next, infos[1..], j);
        var rest := MatchedNames(ports, infos[1..], j);
        assert r[j].name == Named(next[j].name, rest);
        if Target(ports, info) == Some(j) {
          assert MatchedNames(ports, infos, j) == [info.name] + rest;
          NamedStep(ports[j].name, info.name, rest);
        } else {
          assert MatchedNames(ports, infos, j) == [] + rest == rest;
        }
      }
    }
  }

  /** A loop that goes through changes only names. */
  lemma {:induction false} UpdateComportsOnlyNames(ports: seq<Port>, infos: seq<ComPort>)
    requires UpdateComports(ports, infos).Success?
    ensures OnlyNames(ports, UpdateComports(ports, infos).value)
    decreases |infos|
  {
    if infos != [] {
      NameOntoSpec(ports, infos[0]);
      var next := NameOnto(ports, infos[0]).value;
      UpdateComportsOnlyNames(next, infos[1..]);
      OnlyNamesTransitive(ports, next, UpdateComports(next, infos[1..]).value);
    }
  }

  /** The loop raises exactly when the location of some USB serial port does not parse. */
  lemma {:induction false} UpdateComportsFails(ports: seq<Port>, infos: seq<ComPort>)
    ensures UpdateComports(ports, infos).Failure? <==>
      exists i :: 0 <= i < |infos| && IsUsbComPort(infos[i]) && ParseLocation(infos[i].location).Failure?
    ensures UpdateComports(ports, infos).Failure? ==> UpdateComports(ports, infos).error == BadLocation
    decreases |infos|
  {
    if infos != [] {
      NameOntoSpec(ports, infos[0]);
      if NameOnto(ports, infos[0]).Success? {
        UpdateComportsFails(NameOnto(ports, infos[0]).value, infos[1..]);
        assert forall i :: 1 <= i < |infos| ==> infos[i] == infos[1..][i - 1];
      }
    }
  }

  /** Serial ports without a vendor or product id are skipped. */
  lemma {:induction false} NonUsbIgnored(ports: seq<Port>, infos: seq<ComPort>)
    requires forall i :: 0 <= i < |infos| ==> !IsUsbComPort(infos[i])
    ensures UpdateComports(ports, infos) == Success(ports)
    decreases |infos|
  {
    if infos != [] {
      NonUsbIgnored(ports, infos[1..]);
    }
  }
}
