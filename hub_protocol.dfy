/**
 * Hub class requests issued through the USBDEVFS_CONTROL ioctl, and the
 * decoding of their replies: the port-status word pair (section 11.24.2.7
 * of USB 2.0, section 10.14.2.6 of USB 3.0) and the hub descriptor (section
 * 11.23.2.1 of USB 2.0, section 10.13.2.1 of USB 3.0).
 */
module HubProtocol {
  import opened Wrappers

  type Bytes = seq<bv8>

  /** The widths of the ctypes fields `c_uint8`, `c_uint16`, `c_uint32`. */
  type U8 = x: int | 0 <= x < 0x100
  type U16 = x: int | 0 <= x < 0x1_0000
  type U32 = x: int | 0 <= x < 0x1_0000_0000

  const USB_TIMEOUT: U32 := 5000

  const USB_DIR_OUT: U8 := 0x00
  const USB_DIR_IN: U8 := 0x80
  const USB_TYPE_CLASS: U8 := 0x20
  const USB_RECIP_DEVICE: U8 := 0x00
  const USB_RECIP_OTHER: U8 := 0x03

  const USB_REQ_GET_STATUS: U8 := 0x00
  const USB_REQ_CLEAR_FEATURE: U8 := 0x01
  const USB_REQ_SET_FEATURE: U8 := 0x03
  const USB_REQ_GET_DESCRIPTOR: U8 := 0x06

  const USB_DT_HUB: U8 := 0x29
  const USB_DT_SUPERSPEED_HUB: U8 := 0x2a

  const USB_PORT_STAT_CONNECTION: bv16 := 0x0001
  const USB_PORT_STAT_ENABLE: bv16 := 0x0002
  const USB_PORT_STAT_SUSPEND: bv16 := 0x0004
  const USB_PORT_STAT_RESET: bv16 := 0x0010
  const USB_PORT_STAT_POWER: bv16 := 0x0100
  const USB_PORT_STAT_POWER_SS: bv16 := 0x0200

  const USB_PORT_FEAT_ENABLE: nat := 1
  const USB_PORT_FEAT_RESET: nat := 4
  const USB_PORT_FEAT_POWER: nat := 8

  /** `sizeof(usb_port_status)` and `sizeof(usb_hub_descriptor)`, both packed. */
  const PORT_STATUS_SIZE: nat := 4
  const HUB_DESCRIPTOR_SIZE: nat := 7

  /** `struct usbdevfs_ctrltransfer` without its data pointer: the setup packet and the timeout. */
  datatype ControlHeader = ControlHeader(
    requestType: U8, request: U8, value: U16, index: U16, length: U16, timeout: U32)

  /** Assigning a Python int to a `c_uint16` field keeps its low 16 bits. */
  function Low16(n: nat): U16 {
    n % 0x1_0000
  }

  /**
   * The direction, type and recipient constants occupy disjoint bits of
   * bmRequestType, so or-ing them is adding them.
   */
  function RequestType(direction: U8, kind: U8, recipient: U8): U8
    requires direction in {USB_DIR_OUT, USB_DIR_IN} && kind == USB_TYPE_CLASS
    requires recipient in {USB_RECIP_DEVICE, USB_RECIP_OTHER}
  {
    direction + kind + recipient
  }

  // ---- reading a setup packet ----

  /** What a hub class request asks for. */
  datatype HubRequest =
    | SetPortFeature(port: nat, feature: nat)
    | ClearPortFeature(port: nat, feature: nat)
    | GetPortStatus(port: nat)
    | GetHubDescriptor(descriptorType: nat, length: nat)

  /** The fields of bmRequestType (section 9.3.1 of USB 2.0). */
  predicate DeviceToHost(requestType: U8) { requestType >= 0x80 }
  function RequestKind(requestType: U8): int { (requestType / 0x20) % 4 }
  function Recipient(requestType: U8): int { requestType % 0x20 }

  const KIND_CLASS := 1
  const RECIPIENT_DEVICE := 0
  const RECIPIENT_OTHER := 3

  /**
   * The hub request a setup packet carries, read the way a hub reads it
   * (section 11.24.2 of USB 2.0): a class request to "other" (a port) or to
   * the hub device itself; None for anything else.
   */
  function Interpret(h: ControlHeader): Option<HubRequest>
  {
    if RequestKind(h.requestType) != KIND_CLASS then None
    else if !DeviceToHost(h.requestType) && Recipient(h.requestType) == RECIPIENT_OTHER && h.length == 0 then
      if h.request == USB_REQ_SET_FEATURE then Some(SetPortFeature(h.index, h.value))
      else if h.request == USB_REQ_CLEAR_FEATURE then Some(ClearPortFeature(h.index, h.value))
      else None
    else if DeviceToHost(h.requestType) && Recipient(h.requestType) == RECIPIENT_OTHER
      && h.request == USB_REQ_GET_STATUS && h.value == 0 then
      Some(GetPortStatus(h.index))
    else if DeviceToHost(h.requestType) && Recipient(h.requestType) == RECIPIENT_DEVICE
      && h.request == USB_REQ_GET_DESCRIPTOR && h.index == 0 && h.value % 0x100 == 0 then
      Some(GetHubDescriptor(h.value / 0x100, h.length))
    else None
  }

  // ---- the three requests the tool sends ----

  /**
   * `usb_hub_feature`: SET_FEATURE when `enable` holds, CLEAR_FEATURE
   * otherwise, of `feature` on `port`, with no data stage; the port and the
   * feature are truncated to 16 bits as the ctypes fields do.
   */
  function FeatureRequest(port: nat, feature: nat, enable: bool): (h: ControlHeader)
    ensures Interpret(h) == Some(if enable then SetPortFeature(port % 0x1_0000, feature % 0x1_0000)
                                 else ClearPortFeature(port % 0x1_0000, feature % 0x1_0000))
    ensures h.length == 0 && h.timeout == USB_TIMEOUT
  {
    ControlHeader(RequestType(USB_DIR_OUT, USB_TYPE_CLASS, USB_RECIP_OTHER),
                  if enable then USB_REQ_SET_FEATURE else USB_REQ_CLEAR_FEATURE,
                  Low16(feature), Low16(port), 0, USB_TIMEOUT)
  }

  /** `usb_hub_port_status`'s request: GET_STATUS of `port`, reading the 4-byte word pair. */
  function PortStatusRequest(port: nat): (h: ControlHeader)
    ensures Interpret(h) == Some(GetPortStatus(port % 0x1_0000))
    ensures h.length == PORT_STATUS_SIZE && h.timeout == USB_TIMEOUT
  {
    ControlHeader(RequestType(USB_DIR_IN, USB_TYPE_CLASS, USB_RECIP_OTHER), USB_REQ_GET_STATUS,
                  0, Low16(port), PORT_STATUS_SIZE, USB_TIMEOUT)
  }

  /** The hub descriptor type a hub of this USB level answers to: 0x2A from USB 3 on, 0x29 below. */
  function HubDescriptorType(level: nat): U8 {
    if level >= 3 then USB_DT_SUPERSPEED_HUB else USB_DT_HUB
  }

  /** `usb_hub_numports`'s request: GET_DESCRIPTOR of the hub descriptor, 7 bytes. */
  function HubDescriptorRequest(level: nat): (h: ControlHeader)
    ensures Interpret(h) == Some(GetHubDescriptor(if level >= 3 then 0x2A else 0x29, HUB_DESCRIPTOR_SIZE))
    ensures h.length == HUB_DESCRIPTOR_SIZE && h.timeout == USB_TIMEOUT
  {
    ControlHeader(RequestType(USB_DIR_IN, USB_TYPE_CLASS, USB_RECIP_DEVICE), USB_REQ_GET_DESCRIPTOR,
                  HubDescriptorType(level) * 0x100, 0, HUB_DESCRIPTOR_SIZE, USB_TIMEOUT)
  }

  // ---- replies ----

  /** The zeroed ctypes buffer of `size` bytes after the kernel copied the reply into it. */
  function FillBuffer(reply: Bytes, size: nat): (buf: Bytes)
    ensures |buf| == size
    ensures |reply| >= size ==> buf == reply[..size]
    ensures |reply| < size ==> buf[..|reply|] == reply && forall i :: |reply| <= i < size ==> buf[i] == 0
  {
    seq(size, i requires 0 <= i < size => if i < |reply| then reply[i] else 0)
  }

  /** Two little-endian bytes as a 16-bit word. */
  function Word(lo: bv8, hi: bv8): bv16 {
    (lo as bv16) | ((hi as bv16) << 8)
  }

  function WordBytes(w: bv16): (b: Bytes)
    ensures |b| == 2
  {
    [(w & 0xff) as bv8, (w >> 8) as bv8]
  }

  lemma WordRoundTrip(w: bv16)
    ensures Word(WordBytes(w)[0], WordBytes(w)[1]) == w
  {
  }

  /** `struct usb_port_status`: wPortStatus then wPortChange, little-endian, packed. */
  datatype PortStatusReply = PortStatusReply(status: bv16, change: bv16)

  function DecodePortStatusReply(buf: Bytes): (r: PortStatusReply)
    requires |buf| == PORT_STATUS_SIZE
  {
    PortStatusReply(Word(buf[0], buf[1]), Word(buf[2], buf[3]))
  }

  function EncodePortStatusReply(r: PortStatusReply): (buf: Bytes)
    ensures |buf| == PORT_STATUS_SIZE
  {
    WordBytes(r.status) + WordBytes(r.change)
  }

  lemma PortStatusReplyRoundTrip(r: PortStatusReply)
    ensures DecodePortStatusReply(EncodePortStatusReply(r)) == r
  {
    WordRoundTrip(r.status);
    WordRoundTrip(r.change);
  }

  /** `struct usb_hub_descriptor` (its first seven bytes), packed. */
  datatype HubDescriptor = HubDescriptor(
    descLength: bv8, descriptorType: bv8, nbrPorts: bv8,
    hubCharacteristics: bv16, pwrOn2PwrGood: bv8, hubContrCurrent: bv8)

  function DecodeHubDescriptor(buf: Bytes): (d: HubDescriptor)
    requires |buf| == HUB_DESCRIPTOR_SIZE
  {
    HubDescriptor(buf[0], buf[1], buf[2], Word(buf[3], buf[4]), buf[5], buf[6])
  }

  function EncodeHubDescriptor(d: HubDescriptor): (buf: Bytes)
    ensures |buf| == HUB_DESCRIPTOR_SIZE
  {
    [d.descLength, d.descriptorType, d.nbrPorts] + WordBytes(d.hubCharacteristics)
      + [d.pwrOn2PwrGood, d.hubContrCurrent]
  }

  lemma HubDescriptorRoundTrip(d: HubDescriptor)
    ensures DecodeHubDescriptor(EncodeHubDescriptor(d)) == d
  {
    WordRoundTrip(d.hubCharacteristics);
  }

  /**
   * `usb_hub_numports` after the transfer: bNbrPorts of the descriptor read
   * into the 7-byte buffer, or None when the transfer raised.
   */
  function NumPortsOf(reply: Option<Bytes>): (r: Option<nat>)
    ensures r.Some? <==> reply.Some?
    ensures r.Some? ==> r.value < 256
  {
    match reply
    case None => None
    case Some(b) => Some(DecodeHubDescriptor(FillBuffer(b, HUB_DESCRIPTOR_SIZE)).nbrPorts as nat)
  }

  /** A full descriptor reply yields the port count it carries, a short one the zero fill. */
  lemma NumPortsOfReply(d: HubDescriptor, extra: Bytes, short: Bytes)
    requires |short| <= 2
    ensures NumPortsOf(Some(EncodeHubDescriptor(d) + extra)) == Some(d.nbrPorts as nat)
    ensures NumPortsOf(Some(short)) == Some(0)
  {
    var full := EncodeHubDescriptor(d) + extra;
    assert FillBuffer(full, HUB_DESCRIPTOR_SIZE) == EncodeHubDescriptor(d);
    HubDescriptorRoundTrip(d);
  }

  // ---- port status letters ----

  /** The letters in the order `usb_hub_port_status` appends them. */
  const FlagLetters: string := "PCERS"

  /**
   * The wPortStatus bit that reports port power: bit 8 up to USB 2, bit 9 on
   * USB 3, none above USB 3.
   */
  function PowerMask(level: nat): bv16 {
    if level <= 2 then USB_PORT_STAT_POWER else if level == 3 then USB_PORT_STAT_POWER_SS else 0
  }

  /** The wPortStatus bit a letter of "PCERS" reports at a USB level. */
  function FlagMask(letter: char, level: nat): bv16 {
    if letter == 'P' then PowerMask(level)
    else if letter == 'C' then USB_PORT_STAT_CONNECTION
    else if letter == 'E' then USB_PORT_STAT_ENABLE
    else if letter == 'R' then USB_PORT_STAT_RESET
    else if letter == 'S' then USB_PORT_STAT_SUSPEND
    else 0
  }

  /** The letter when it is present, nothing otherwise. */
  function Letter(letter: char, present: bool): string {
    if present then [letter] else []
  }

  /** The status string shown between brackets in the listing. */
  function StatusFlags(word: bv16, level: nat): string {
    Letter('P', word & PowerMask(level) != 0)
      + Letter('C', word & USB_PORT_STAT_CONNECTION != 0)
      + Letter('E', word & USB_PORT_STAT_ENABLE != 0)
      + Letter('R', word & USB_PORT_STAT_RESET != 0)
      + Letter('S', word & USB_PORT_STAT_SUSPEND != 0)
  }

  lemma Regroup(p: string, c: string, e: string, r: string, s: string)
    ensures p + c + e + r + s == p + (c + (e + (r + s)))
  {
  }

  /** `usb_hub_port_status` after the transfer: the letters appended one by one. */
  method DecodePortStatus(buf: Bytes, level: nat) returns (res: string)
    requires |buf| == PORT_STATUS_SIZE
    ensures res == StatusFlags(DecodePortStatusReply(buf).status, level)
  {
    var portStatus := DecodePortStatusReply(buf).status;
    res := [];
    if level <= 2 {
      if portStatus & USB_PORT_STAT_POWER != 0 { res := res + ['P']; }
    }
    if level == 3 {
      if portStatus & USB_PORT_STAT_POWER_SS != 0 { res := res + ['P']; }
    }
    ghost var shown := Letter('P', portStatus & PowerMask(level) != 0);
    assert res == shown;
    if portStatus & USB_PORT_STAT_CONNECTION != 0 { res := res + ['C']; }
    shown := shown + Letter('C', portStatus & USB_PORT_STAT_CONNECTION != 0);
    assert res == shown;
    if portStatus & USB_PORT_STAT_ENABLE != 0 { res := res + ['E']; }
    shown := shown + Letter('E', portStatus & USB_PORT_STAT_ENABLE != 0);
    assert res == shown;
    if portStatus & USB_PORT_STAT_RESET != 0 { res := res + ['R']; }
    shown := shown + Letter('R', portStatus & USB_PORT_STAT_RESET != 0);
    assert res == shown;
    if portStatus & USB_PORT_STAT_SUSPEND != 0 { res := res + ['S']; }
    shown := shown + Letter('S', portStatus & USB_PORT_STAT_SUSPEND != 0);
    assert res == shown;
  }

  /** `r` keeps some of the letters of `s`, in their order. */
  predicate Subsequence(r: string, s: string)
    decreases |s|
  {
    if r == [] then true
    else if s == [] then false
    else (r[0] == s[0] && Subsequence(r[1..], s[1..])) || Subsequence(r, s[1..])
  }

  /** Keeping or dropping the head letter preserves being a subsequence. */
  lemma LetterSubsequence(x: char, present: bool, r: string, s: string)
    requires Subsequence(r, s)
    ensures Subsequence(Letter(x, present) + r, [x] + s)
  {
    assert ([x] + s)[1..] == s;
    if present {
      assert (Letter(x, present) + r)[1..] == r;
    } else {
      assert Letter(x, present) + r == r;
    }
  }

  lemma LetterMembers(x: char, present: bool, c: char)
    ensures c in Letter(x, present) <==> c == x && present
  {
  }

  /** The letters come in the order P, C, E, R, S. */
  lemma StatusFlagsOrdered(word: bv16, level: nat)
    ensures Subsequence(StatusFlags(word, level), FlagLetters)
  {
    var p := Letter('P', word & PowerMask(level) != 0);
    var c := Letter('C', word & USB_PORT_STAT_CONNECTION != 0);
    var e := Letter('E', word & USB_PORT_STAT_ENABLE != 0);
    var r := Letter('R', word & USB_PORT_STAT_RESET != 0);
    var s := Letter('S', word & USB_PORT_STAT_SUSPEND != 0);
    Regroup(p, c, e, r, s);
    assert s + [] == s && ['S'] + [] == "S";
    LetterSubsequence('S', word & USB_PORT_STAT_SUSPEND != 0, [], []);
    LetterSubsequence('R', word & USB_PORT_STAT_RESET != 0, s, "S");
    LetterSubsequence('E', word & USB_PORT_STAT_ENABLE != 0, r + s, "RS");
    LetterSubsequence('C', word & USB_PORT_STAT_CONNECTION != 0, e + (r + s), "ERS");
    LetterSubsequence('P', word & PowerMask(level) != 0, c + (e + (r + s)), "CERS");
  }

  /** A letter shows exactly when its bit is set. */
  lemma StatusFlagsMember(word: bv16, level: nat, ch: char)
    ensures ch in StatusFlags(word, level) <==> ch in FlagLetters && word & FlagMask(ch, level) != 0
  {
    LetterMembers('P', word & PowerMask(level) != 0, ch);
    LetterMembers('C', word & USB_PORT_STAT_CONNECTION != 0, ch);
    LetterMembers('E', word & USB_PORT_STAT_ENABLE != 0, ch);
    LetterMembers('R', word & USB_PORT_STAT_RESET != 0, ch);
    LetterMembers('S', word & USB_PORT_STAT_SUSPEND != 0, ch);
  }

  /**
   * The status string is the subsequence of "PCERS" made of exactly the
   * letters whose bit is set; P never shows above USB 3.
   */
  lemma StatusFlagsSpec(word: bv16, level: nat)
    ensures Subsequence(StatusFlags(word, level), FlagLetters)
    ensures forall c :: c in StatusFlags(word, level) <==> c in FlagLetters && word & FlagMask(c, level) != 0
    ensures level >= 4 ==> 'P' !in StatusFlags(word, level)
  {
    StatusFlagsOrdered(word, level);
    forall c | true {
      StatusFlagsMember(word, level, c);
    }
  }

  /** The change word (bytes 2 and 3) never affects the letters. */
  lemma DecodeIgnoresChange(a: Bytes, b: Bytes, level: nat)
    requires |a| == PORT_STATUS_SIZE && |b| == PORT_STATUS_SIZE
    requires a[0] == b[0] && a[1] == b[1]
    ensures StatusFlags(DecodePortStatusReply(a).status, level) == StatusFlags(DecodePortStatusReply(b).status, level)
  {
  }

  /** 0x0103 on a USB 2 hub reads PCE; 0x0201 reads PC on a USB 3 hub but only C on a USB 2 hub. */
  lemma StatusFlagsExamples()
    ensures StatusFlags(0x0103, 2) == "PCE"
    ensures StatusFlags(0x0201, 3) == "PC"
    ensures StatusFlags(0x0201, 2) == "C"
  {
  }
}
