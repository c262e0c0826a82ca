# usbwatch in Dafny

usbwatch is a small Linux tool for USB hubs with per-port power switching. It
enumerates the USB devices (through pyusb), asks every hub for its port count and
the status of each port (through `ioctl` control transfers on `/dev/bus/usb`),
attaches the names of USB serial ports (through pyserial), and prints one line per
port. It can also soft-reset a device, or ask a hub to set or clear a feature
(power, enable, reset) on one of its ports.

This project models the core of `usbwatch.py` and proves properties of that model.
The core is made of:

- the location codec: `parse_location`, the address formatter of `describe_ports`
  and `usb_filename` (modules `Location` and `Text`);
- the hub class requests and their replies: the setup-packet fields of
  SET_FEATURE / CLEAR_FEATURE, GET_STATUS and GET_DESCRIPTOR, and the decoding of
  the port-status word into the letters `PCERS` (module `HubProtocol`). These
  follow sections 9.3, 11.23.2.1 and 11.24.2 of the USB 2.0 specification, and
  sections 10.13.2.1 and 10.14.2.6 of the USB 3.0 specification;
- the port table: the entry derived from each device, `find`, `update_hubs` and
  `update_comports` (modules `Topology` and `Comports`). In module `UsbWatch`,
  the table is the class `PortTable`, whose methods change its `entries` in place
  as the tool changes its list of dictionaries;
- the listing `describe_ports`, which sorts the table in place and prints its
  lines (modules `Listing` and `UsbWatch`);
- the checks `soft_reset` and `set_feature` make before touching the hardware
  (module `Control`);
- the INDI server's line buffer `Indiserver._buffer_update` (module `LineBuffer`).

The hardware is a value of type `Hardware` holding three oracles:

- `canOpen(path)`: whether `open(path, 'w+')` succeeds;
- `transfer(path, header)`: the reply bytes of a control transfer, or `None`
  when the `ioctl` raises;
- `reset(path)`: whether the `USBDEVFS_RESET` `ioctl` succeeds.

What pyusb reports about a device is a `UsbDevice` record. What pyserial reports
about a serial port is a `ComPort` record. An exception that aborts the tool is
the `Failure` case of a `Result`. Its `UsbError` says which `raise` (or which
failing call) it stands for.

Each imperative part of the source is a method proved against a function:

- `PortTable.UpdateHubs` is proved against `ExpandHubs`;
- `PortTable.UpdateComportNames` is proved against `UpdateComports`;
- `PortTable.Describe` is proved against `SortByLocation` and `DescribeLines`;
- `DecodePortStatus` is proved against `StatusFlags`;
- `ReadBuffer.Update` is proved against `BufferUpdate`.

The properties the tool promises are proved as lemmas about those functions.

## Model

| member | source | states |
|---|---|---|
| Text.Strip | usbwatch.py:184 | `str.strip()`: the result is no longer than the text and neither starts nor ends with whitespace (Python's whitespace set) |
| Text.StripSlice | usbwatch.py:184 | `str.strip()` leaves a slice of the text, and only whitespace is cut off before and after it |
| Text.StripUnpadded | usbwatch.py:184 | a text with no whitespace at either end is left unchanged by `strip()` |
| Text.Partition | usbwatch.py:185 | `str.partition('-')`: with a `-`, the text is the head, the separator and the tail, and the head has no `-`; without one, the result is the whole text and `""` |
| Text.Split | usbwatch.py:184-187 | `str.split(c)` yields at least one piece and no piece contains `c` |
| Text.JoinSplit | usbwatch.py:187 | joining the pieces of a split with the separator gives back the text |
| Text.SplitJoin | usbwatch.py:187 | splitting a join of separator-free pieces gives back the pieces |
| Text.ParseDecimal | usbwatch.py:186-188 | `int()` on a segment succeeds exactly on a non-empty string of ASCII digits |
| Text.ParseDecimalPadded | usbwatch.py:186-188 | parsing a zero-padded decimal rendering of `n` gives `n` |
| Text.PadRight | usbwatch.py:288 | the `:13s` / `:5s` formats: the text is kept as a prefix, blanks fill it out to the width, and a longer text is not cut |
| Location.ParsePorts | usbwatch.py:187-188 | the port segments parse exactly when each is a decimal number, and then give one port per segment, in order |
| Location.ParseLocation | usbwatch.py:183-190 | a location that parses has a bus and at least one port; every failure is a parse error |
| Location.ParseLocationNeedsPort | usbwatch.py:185-188 | a text with nothing after its first `-` (such as `"1"` or `"1-"`) is refused |
| Location.ParseLocationFormat | usbwatch.py:183-190 | the printed address of any location with a port parses back to that location |
| Location.ParseLocationSuffix | usbwatch.py:184 | a `:config.interface` suffix after an address is ignored |
| Location.BusOnlyNotParsed | usbwatch.py:183-190 | the address printed for a bare bus (a root hub) is a bare number, and it does not parse back |
| Location.ParseLocationNormalises | usbwatch.py:183-190 | printing a parsed location and parsing it again gives the same location |
| Location.FormatAddressShape | usbwatch.py:270-273 | an address is the decimal bus, a `-`, then the ports as zero-padded fields joined by `.` |
| Location.ParsePortFields | usbwatch.py:271 | the `:02d` port fields read back as the ports, one field per port, in order |
| Location.UsbFilename | usbwatch.py:104-105 | a device file lies under `/dev/bus/usb/` |
| Location.UsbFilenameRoundTrip | usbwatch.py:104-105 | the bus and address can be read back from a device file name |
| Location.UsbFilenameInjective | usbwatch.py:104-105 | distinct (bus, address) pairs name distinct device files |
| Location.LessIrreflexive | usbwatch.py:255 | no location sorts before itself under tuple order |
| Location.LessTransitive | usbwatch.py:255 | the tuple order is transitive |
| Location.LessTotal | usbwatch.py:255 | any two locations are equal or ordered one way |
| Location.LessAsymmetric | usbwatch.py:255 | no two locations sort before each other |
| Location.PrefixSortsFirst | usbwatch.py:255 | a location sorts before every location that extends it |
| Location.OrderExample | usbwatch.py:255 | (1,) < (1,1) < (1,1,1) < (1,2) < (2,) |
| HubProtocol.FeatureRequest | usbwatch.py:110-119 | the header is a class request to a port; it sets the feature when the value is truthy and clears it otherwise; the feature and port are cut to 16 bits, and no data stage follows |
| HubProtocol.PortStatusRequest | usbwatch.py:121-136 | the header is a class GET_STATUS read from the port that asks for the 4-byte status |
| HubProtocol.HubDescriptorRequest | usbwatch.py:151-171 | the header is a class GET_DESCRIPTOR read of the 7-byte hub descriptor, of type 0x2A from USB 3 on and 0x29 below |
| HubProtocol.FillBuffer | usbwatch.py:136-138 | the buffer has the structure's size; a long reply is cut to its prefix of that size, a short one is its prefix and zeros fill the rest |
| HubProtocol.WordRoundTrip | usbwatch.py:122-127 | a little-endian 16-bit field reads back as the value it was written from |
| HubProtocol.PortStatusReplyRoundTrip | usbwatch.py:122-127 | decoding the 4-byte status reply inverts encoding it |
| HubProtocol.HubDescriptorRoundTrip | usbwatch.py:152-162 | decoding the packed 7-byte hub descriptor inverts encoding it |
| HubProtocol.NumPortsOf | usbwatch.py:172-177 | the port count is known exactly when the transfer succeeded, and it is below 256 |
| HubProtocol.NumPortsOfReply | usbwatch.py:172-175 | the count is the descriptor's `bNbrPorts`, whatever follows the descriptor; a reply of at most 2 bytes gives 0 |
| HubProtocol.DecodePortStatus | usbwatch.py:137-149 | the appending loop yields exactly the flag letters of the `wPortStatus` word |
| HubProtocol.StatusFlagsSpec | usbwatch.py:139-149 | the letters come in the order P C E R S; a letter appears exactly when its bit is set; P is bit 0x0100 up to USB 2, bit 0x0200 on USB 3, and it never appears above |
| HubProtocol.StatusFlagsMember | usbwatch.py:139-149 | a letter appears in the status exactly when it is one of `PCERS` and its bit is set |
| HubProtocol.StatusFlagsOrdered | usbwatch.py:139-149 | the letters appear in the order P, C, E, R, S |
| HubProtocol.DecodeIgnoresChange | usbwatch.py:138 | the `wPortChange` bytes do not affect the status letters |
| HubProtocol.StatusFlagsExamples | usbwatch.py:139-149 | 0x0103 at level 2 gives `PCE`; 0x0201 gives `PC` at level 3 and `C` at level 2 |
| Topology.DeriveEntry | usbwatch.py:226-247 | an entry's location is the bus followed by the port numbers (or nothing); it keeps the device's bus, address, port number, vendor and product ids and serial; the level is the high byte of `bcdUSB`; it is a hub exactly when the class is 0x09; a non-empty product or manufacturer is stripped and any other is kept; there is no count, status or name yet |
| Topology.RootHubLocation | usbwatch.py:228-229 | a device with no port numbers sits at its bare bus |
| Topology.Find | usbwatch.py:66-69 | a found index points at an entry with the location |
| Topology.FindFirst | usbwatch.py:66-69 | `find` returns the first entry at the location, and nothing exactly when no entry sits there |
| Topology.FindAppended | usbwatch.py:66-69 | an entry appended at a location that had none becomes the one found there |
| Topology.ReadNumPorts | usbwatch.py:151-177 | the port count is known exactly when the descriptor transfer succeeds |
| Topology.ReadPortStatus | usbwatch.py:121-149 | the status is known exactly when the status transfer succeeds, and it is a subsequence of `PCERS` |
| Topology.AttachStatusSpec | usbwatch.py:215-222 | afterwards the first entry at the location carries the status; exactly when the location had no entry, one empty-port entry at that location with that status is appended, and nothing else |
| Topology.AttachStatusExtends | usbwatch.py:215-222 | attaching a status keeps every entry's location, device and name and the port counts, and appends at most one empty-port entry, at the location, which no entry had |
| Topology.AttachPreserves | usbwatch.py:215-222 | the status already at any other location is kept |
| Topology.ProbeFromExtends | usbwatch.py:213-222 | probing ports `k..n` of a hub keeps every entry's location, device, name and count, and appends only empty-port entries, each at one of those ports and at a location no other entry has |
| Topology.ProbeFromFails | usbwatch.py:213-214 | probing raises exactly when the status read of some port in range raises |
| Topology.ProbeFromCovers | usbwatch.py:213-222 | after probing, every port in range has an entry carrying its status |
| Topology.ProbeFromPreserves | usbwatch.py:213-222 | statuses at locations other than the probed ports are kept |
| Topology.VisitHubSpec | usbwatch.py:204-212 | visiting an entry sets only that entry's count, to what its hub reported, or leaves it unchanged |
| Topology.VisitHubExtends | usbwatch.py:204-222 | visiting an entry keeps every entry's location, device and name, and appends only empty-port entries, each at one of the ports `1..N` of that hub (N its reported count) and at a location no other entry has |
| Topology.VisitHubFails | usbwatch.py:204-222 | a visit raises exactly when the entry is a hub whose file cannot be opened, or one port status read raises |
| Topology.VisitHubCovers | usbwatch.py:210-222 | after a hub's visit, each of its ports 1..N has an entry carrying that port's status |
| Topology.VisitHubPreserves | usbwatch.py:204-222 | a hub's visit keeps the statuses that are not at its own ports |
| Topology.ExpandFromSpec | usbwatch.py:202-222 | over the snapshot, entries keep location, device and name, only empty-port entries are appended, no two at the same location and none where an entry already was, and each snapshot entry gets its own hub's count |
| Topology.ExpandFromFailsAt | usbwatch.py:203-214 | when any hub in the snapshot fails, `update_hubs` raises |
| Topology.ExpandFromFailure | usbwatch.py:203-214 | when `update_hubs` raises, some hub in the snapshot failed |
| Topology.ExpandFromAppends | usbwatch.py:202-222 | every entry `update_hubs` appends sits at a port `1..N` of a snapshot hub that reported N ports, at a location no other entry has |
| Topology.ExpandHubsFails | usbwatch.py:202-222 | `update_hubs` raises exactly when some hub in the snapshot cannot be opened or has a port status read raise |
| Topology.ExpandFromPreserves | usbwatch.py:202-222 | a status stays when no later hub in the snapshot is its parent |
| Topology.ExpandFromCovers | usbwatch.py:202-222 | with distinct hub locations, every port 1..N of every hub with a known count has an entry carrying that port's status once the loop ends |
| Topology.ExpandFromNoHubs | usbwatch.py:204 | a table without hubs is left as it is |
| Topology.HubFailsExtends | usbwatch.py:204-214 | whether an entry's hub fails depends only on the entry's device, which the loop keeps |
| Comports.AppendName | usbwatch.py:197-200 | the serial port name ends the new name; an existing non-empty name comes first, followed by a space |
| Comports.Target | usbwatch.py:194-196 | a serial port lands on an entry exactly when it has a vendor and a product id, its location parses, and an entry sits there |
| Comports.NameOntoSpec | usbwatch.py:194-200 | one serial port raises exactly when it is a USB port whose location does not parse; otherwise only the name of its target entry changes |
| Comports.UpdateComportsNames | usbwatch.py:192-200 | afterwards every entry keeps all but its name; its name is the old one followed by the names of the serial ports located at it, in pyserial's order |
| Comports.UpdateComportsOnlyNames | usbwatch.py:192-200 | `update_comports` changes nothing but names |
| Comports.UpdateComportsFails | usbwatch.py:192-196 | `update_comports` raises exactly when some USB serial port's location does not parse, and then the error is a parse error |
| Comports.NonUsbIgnored | usbwatch.py:194 | serial ports without vendor or product id change nothing |
| Comports.MatchedNames | usbwatch.py:195-196 | no serial port names an entry exactly when none of the serial ports lands on it |
| Comports.MatchedNamesSameLocations | usbwatch.py:195-196 | only the locations of the table decide where each serial port lands |
| Comports.NamedStep | usbwatch.py:197-200 | appending a name and then the rest equals appending all of them at once |
| Listing.InsertSorted | usbwatch.py:255 | inserting into a sorted table keeps it sorted and adds exactly that entry |
| Listing.SortByLocationSpec | usbwatch.py:255 | `ports.sort(key=location)` yields a permutation sorted by tuple order |
| Listing.SortByLocationStable | usbwatch.py:255 | entries at the same location keep their relative order, as Python's sort is stable |
| Listing.SortedPairs | usbwatch.py:255 | in a sorted table, every earlier entry is at or before every later one |
| Listing.HexFieldLength | usbwatch.py:286 | a 16-bit id prints as exactly four hex digits |
| Listing.VidPidWidth | usbwatch.py:286 | a device's `vvvv:pppp` field is nine characters with `:` in the middle |
| Listing.StatusText | usbwatch.py:287 | the status column is the port's status letters between brackets, or empty brackets when it has none |
| Listing.LabelOrder | usbwatch.py:274-285 | with every part present, the label is the name, ` - `, the manufacturer, the product and the serial number in brackets |
| Listing.LabelUnknownProduct | usbwatch.py:278-279 | a device with no product or other strings is labelled `?` |
| Listing.LabelOfEmptyPort | usbwatch.py:274-285 | an empty port shows no vid:pid and only its name, if any |
| Listing.LineColumns | usbwatch.py:288 | when the address fits in 13 characters and the status in 5, a line is the address in 13 columns, a blank, the status in 5 columns, a blank, then vid:pid, a blank and the label |
| Listing.NonHubsSpec | usbwatch.py:267-268 | the lines come from exactly the entries that are not hubs, each as often as it occurs |
| Listing.NonHubsSorted | usbwatch.py:255-268 | skipping hubs keeps a sorted table sorted |
| Listing.LinesOfNonHubs | usbwatch.py:256-289 | there is one line per non-hub entry, in table order, each formatted from its entry |
| Listing.DescribeLinesSpec | usbwatch.py:254-290 | the lines are those of the non-hub entries, sorted by location, one per entry, and each is the formatted line of its entry |
| Control.ResetTarget | usbwatch.py:522-530 | resolving a reset fails only with a parse error, "port not found" or "not enumerated" |
| Control.ResetTargetSpec | usbwatch.py:522-528 | the device that gets reset is that of the first entry at the parsed location |
| Control.ResetListed | usbwatch.py:522-530 | the printed address of a listed device resets that device |
| Control.ResetEmptyPortRefused | usbwatch.py:527-528 | an entry with no device behind it, named by a serial port or not, cannot be soft-reset |
| Control.ResetUnknownRefused | usbwatch.py:523-526 | a location with no entry is "port not found"; a root hub's bare bus does not parse |
| Control.SoftResetEffectSpec | usbwatch.py:522-530 | a reset goes through exactly when the target resolves and its device file opens and resets; the file reset is the device's own |
| Control.FeatureTarget | usbwatch.py:532-541 | resolving a feature request never fails as "not enumerated" |
| Control.FeatureAt | usbwatch.py:535-539 | once parsed, a feature request fails only as "port not found", with no entry for the parent, or "hub never enumerated" |
| Control.FeatureAtSpec | usbwatch.py:535-541 | the request goes to the first entry at the parent location, about the last port number, and only when the port itself has an entry |
| Control.FeatureListed | usbwatch.py:532-541 | the printed address of a listed port whose hub is listed with its device addresses that hub and port |
| Control.FeatureOrphanRefused | usbwatch.py:537-538 | a port whose hub has no entry is refused |
| Control.FeatureResolved | usbwatch.py:535-541 | a resolved feature request is addressed to the first entry at the parent location and names the location's last port |
| Control.FeatureEffectResolved | usbwatch.py:532-541 | a request that goes through is sent to the device file of the first entry at the parent of the parsed location, with the location's last port |
| Control.SetFeatureEffectSpec | usbwatch.py:532-541 | a request that goes through is sent to the hub's device file and sets or clears the feature on the resolved port |
| LineBuffer.BufferUpdateJoin | usbwatch.py:299-304 | joined with newlines, the buffer holds everything received so far, in order |
| LineBuffer.BufferUpdateLines | usbwatch.py:299-304 | no buffered string holds a newline; each newline received starts a new string |
| LineBuffer.ReadBuffer.Update | usbwatch.py:299-304 | the in-place update glues the first piece onto the last line and appends the rest |
| UsbWatch.ListPortsSpec | usbwatch.py:224-252 | a listing that goes through holds the devices' entries first, in order, each with its own hub count, followed only by empty-port entries, each at a port `1..N` of an enumerated hub that reported N ports and at a location no earlier entry has |
| UsbWatch.ListingFailsFirst | usbwatch.py:522-534 | when the fresh listing fails on a hub, `soft_reset` and `set_feature` fail with that error before the location is looked at |
| UsbWatch.SoftResetSpec | usbwatch.py:522-530 | a reset that goes through lists the ports, parses the location, and resets the device file of the first entry at that location |
| UsbWatch.SetFeatureSpec | usbwatch.py:532-541 | a feature request that goes through lists the ports, parses the location, and sends to the device file of the first entry at the parent location a set or clear of the feature on the last port |
| UsbWatch.SetFeatureAfterListing | usbwatch.py:532-541 | once the listing goes through, `set_feature` is the request on that listing |
| UsbWatch.ListPortsFails | usbwatch.py:224-252 | the listing raises an OS error exactly when some enumerated hub fails, and otherwise a parse error exactly when some USB serial port's location does not parse |
| UsbWatch.PortTable.constructor | usbwatch.py:225-248 | the enumeration loop fills the table with the derived entries |
| UsbWatch.PortTable.FindEntry | usbwatch.py:66-69 | the linear scan finds what `find` finds |
| UsbWatch.PortTable.AttachPortStatus | usbwatch.py:215-222 | the entry at the location gets the status, or an empty-port entry is appended |
| UsbWatch.PortTable.ProbePorts | usbwatch.py:213-222 | the port loop fails exactly when a status read raises, and otherwise leaves the probed table |
| UsbWatch.PortTable.VisitEntry | usbwatch.py:204-222 | one turn of the outer loop, as the visit it is specified by |
| UsbWatch.PortTable.UpdateHubs | usbwatch.py:202-222 | `update_hubs` in place fails exactly when the snapshot expansion fails, and otherwise leaves its result |
| UsbWatch.PortTable.UpdateComportNames | usbwatch.py:192-200 | `update_comports` in place fails exactly when the naming fails, and otherwise leaves its result |
| UsbWatch.PortTable.DescribeEntry | usbwatch.py:262-288 | the label built step by step gives the formatted line of the entry |
| UsbWatch.PortTable.LinesOf | usbwatch.py:256-289 | the line loop gives one line per non-hub entry |
| UsbWatch.PortTable.Describe | usbwatch.py:254-290 | the table is left sorted by location and the lines are those of its non-hub entries in that order |
| UsbWatch.ListUsbPorts | usbwatch.py:224-252 | the imperative listing gives the listing function's result, failures included |

## Left out

- Hardware and the OS: `open`, `fcntl.ioctl`, ctypes buffers and the `USBDEVFS_*` requests become the `Hardware` oracles. The request bytes themselves are the modelled `ControlHeader`.
- pyusb enumeration and string-descriptor reads (`device_serial`, `device_product`, `device_manufacturer`) become the `UsbDevice` fields, where a string that could not be read is an absent one. `device_serial` swallows every exception (usbwatch.py:71-75), but `device_product` and `device_manufacturer` catch only `ValueError` (usbwatch.py:77-87): any other exception from those reads aborts `list_usbports`, and the model does not represent that abort.
- pyserial's `list_ports.comports()` becomes the `ComPort` sequence. Its location is taken to be a string, whereas pyserial may report `None`, on which `parse_location` raises an `AttributeError`.
- The INDI server (sockets, `select`, XML parsing and serialisation, `_buffer_parse`), the HTTP handler, argparse and the command-line wiring are not modelled. They are I/O around the core; `_buffer_parse` depends on an XML parser.
- Floating-point and timing: the 5000 ms transfer timeout is only a header field.
- Location.ParseLocation, Location.ParsePorts, Text.ParseDecimal: `int()` is restricted to non-empty strings of ASCII digits. Python also accepts surrounding whitespace, underscores, a sign and non-ASCII digits, so `"1-2.-3"` would give port -3 there and is refused here.
- Text.NatDigits: only bases 10 and 16 are provided, the two the tool prints in.
- Topology.ExpandFromCovers: the coverage property assumes that no two hubs in the snapshot share a location. With duplicated hub locations, the later hub's statuses overwrite the earlier one's.
- Comports.UpdateComportsNames: the closed form of the names assumes that every serial port name is non-empty. An empty name is not truthy, so the name appended after it gets no blank in front, which the closed form does not describe.
- The table's state after an exception is not modelled: a failing `update_hubs` or `update_comports` leaves a partly updated list behind in the source, while the model returns only the failure.
- The `'Hub'` label branch of `describe_ports` (usbwatch.py:276-277) is unreachable, since hubs are skipped earlier, so it is left out.

## Where the code and its description differ

- A hub whose device file cannot be opened, or one of whose port status reads raises, aborts the whole listing. Only the descriptor read is caught (usbwatch.py:172-177). The model follows the code: no per-hub isolation.
- A status word of 0x0201 reads `C` on a USB 2 hub but `PC` on a USB 3 hub, since 0x0200 is both the low-speed bit and the USB 3 power bit (usbwatch.py:35-40, 141-144).
- When the parent location of a port has no entry, `set_feature` fails with a `TypeError` on `'dev' not in None` (usbwatch.py:537-538), not with its "hub never enumerated" message. The model keeps this as its own error, `NoParentEntry`.
