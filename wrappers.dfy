/** Failure-carrying datatypes shared by every component of the model. */
module Wrappers {

  datatype Option<+T> = None | Some(value: T)

  datatype Result<+T> = Success(value: T) | Failure(error: UsbError)

  /** The exceptions the tool raises, by where they come from. */
  datatype UsbError =
    | BadLocation          // ValueError from int() while parsing a location
    | PortNotFound         // 'bad usb port location, port not found'
    | NotEnumerated        // 'usb device not enumerated or plugged in, ...'
    | HubNeverEnumerated   // 'cannot talk to device's hub, usb hub never enumerated'
    | NoParentEntry        // TypeError: the parent location has no entry at all
    | HardwareError        // open() or ioctl() raised
}
