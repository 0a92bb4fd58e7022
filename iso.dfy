/** The ISO 8583 values that ProtectedLogListener handles, and the behaviour of
    the jPOS collaborators (ISOUtil.protect, ISOMsg.set) that it depends on. */
module Iso {

  datatype Option<+T> = None | Some(value: T)

  /** An ISO 8583 message as the listener sees it: field number to string
      value. Being a value, a copy of it (ISOMsg.clone) shares nothing with
      the original. */
  type Fields = map<int, string>

  /** The ISOException raised by `m.set(new ISOField(field, value))`. */
  datatype IsoException = IsoException(field: int, value: string)

  /** One element of a LogEvent payload: an ISOMsg, an exception that was
      added to the event, or any other logged object. */
  datatype Item =
    | Message(fields: Fields)
    | Raised(exception: IsoException)
    | Other(text: string)

  /** What the listener needs from the rest of jPOS: `protect` is
      ISOUtil.protect, and `setFails(f, v)` holds when `m.set(new ISOField(f, v))`
      throws ISOException (a set that throws leaves the message unchanged). */
  datatype Collaborators = Collaborators(protect: string -> string, setFails: (int, string) -> bool)

  /** The literal checkHidden writes over a wiped field. */
  const WIPED: string := "[WIPED]"

  /** The rewrite of the wipe pass: every value becomes WIPED. */
  function Wipe(v: string): string
  {
    WIPED
  }
}
