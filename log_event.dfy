/** The part of jPOS's LogEvent that ProtectedLogListener uses: its payload,
    a list of logged objects that listeners may rewrite in place, and
    addMessage, which appends an object to that same payload. */
module Events {
  import opened Iso

  class LogEvent {
    var payload: seq<Item>

    constructor (items: seq<Item>)
      ensures payload == items
    {
      payload := items;
    }

    /** `ev.addMessage(x)`: append `x` to the payload. */
    method AddMessage(x: Item)
      modifies this
      ensures payload == old(payload) + [x]
    {
      payload := payload + [x];
    }

    /** `payLoad.setElementAt(x, i)`: replace the item at index `i`. */
    method SetElementAt(x: Item, i: nat)
      requires i < |payload|
      modifies this
      ensures payload == old(payload)[i := x]
    {
      payload := payload[i := x];
    }
  }
}
