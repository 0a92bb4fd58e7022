# ProtectedLogListener, modelled and proved in Dafny

jPOS's `ProtectedLogListener` is a log listener. It sits in a logger chain
before the listeners that persist events, and it rewrites every ISO 8583
message in a `LogEvent`'s payload so that sensitive fields never reach the
log in clear text. For each payload index below the size the payload had on
entry, an `ISOMsg` is cloned. On the clone, every present field listed in
`protect` is set to `ISOUtil.protect` of its value (checkProtected). Then
every present field listed in `wipe` is set to `"[WIPED]"` (checkHidden). The
clone replaces the message at the same index. Both passes run inside ONE try
block: an `ISOException` ends the work on that message. The exception is
added to the event and the partly redacted clone is stored all the same.

The project:

- `iso.dfy` (module `Iso`): a message is a `map<int, string>` value, so a
  clone shares nothing with the original. A payload item is a message, a
  raised exception, or any other object. `Collaborators` holds what the
  listener relies on from the rest of jPOS, as parameters: `protect` is `ISOUtil.protect`, an
  arbitrary function, and `setFails(f, v)` says when
  `m.set(new ISOField(f, v))` throws.
- `redaction.dfy` (module `Redaction`): both passes as one function `Pass`,
  and the try block as `Redact`. The lemmas say which fields change and to
  what, that wipe wins over protect, that no field is created, and exactly
  where an exception stops the work.
- `field_list.dfy` (module `FieldList`): the configuration as a
  property-name-to-value map, and `ISOUtil.toIntArray` as a parser of
  blank-separated decimals. It comes with a round-trip lemma.
- `log_event.dfy` (module `Events`): the `LogEvent` payload. `addMessage`
  appends to the same payload, which is what jPOS's `LogEvent` does.
- `protected_log_listener.dfy` (module `ProtectedLog`): the listener as a
  class. Its fields are `protectFields`, `wipeFields` and `cfg`. An unset
  field (Java `null`) is `None`. `CheckProtected`, `CheckHidden` and `Log`
  are loops, proved equal to the specification
  functions `Pass` (for the two checks) and `Filtered` (for `Log`).
  `SetConfiguration` is a sequence of assignments whose new state is given
  in terms of the parser `ToIntArray`.
- `scenarios.dfy` (module `Scenarios`): the configuration `protect="2 48"`,
  `wipe="35"` applied to a message that carries a card number, track-2 data
  and additional data.

### Consequences of the code worth knowing

- One try block holds both passes. A failure in the protect pass therefore
  skips the whole wipe pass: when setting field 48 throws, field 35 stays in
  clear text (`Scenarios.FaultOnField48`, `Redaction.RedactProtectFault`).
- `ev.addMessage(e)` appends the exception to the payload itself, after the
  items present on entry. The loop bound is the size captured on entry, so
  those appended items are never visited.
- A field listed twice in `protect` is masked twice. The model states this
  as `Iterate(protect, Count(...))`.

## Model

| member | source | states |
|---|---|---|
| `Redaction.Pass` | modules/jpos/src/org/jpos/util/ProtectedLogListener.java:108-121 | a pass never adds or removes a field; a field it does not list keeps its value; a thrown exception names a listed field whose set fails |
| `Redaction.Redact` | modules/jpos/src/org/jpos/util/ProtectedLogListener.java:96-102 | the redacted clone has exactly the original's fields; a field in neither list keeps its value, even after an exception; a recorded exception is one the set really throws |
| `Redaction.PassValue` | modules/jpos/src/org/jpos/util/ProtectedLogListener.java:109-113 | a pass without an exception applies the rewrite to a present field once for each time the field is listed |
| `Redaction.PassAppend` | modules/jpos/src/org/jpos/util/ProtectedLogListener.java:109-113 | a pass over `a + b` is the pass over `a`, then, unless that threw, the pass over `b` |
| `Redaction.PassStopsAtFault` | modules/jpos/src/org/jpos/util/ProtectedLogListener.java:109-120 | a pass that throws stops at the first failing set, at some list position j. The message equals the result of the exception-free pass over the first j fields. The failing field is unchanged, and the exception carries the value that was to be written |
| `Redaction.RedactFieldValue` | modules/jpos/src/org/jpos/util/ProtectedLogListener.java:97-99 | with no exception, a present field listed in `wipe` ends as `"[WIPED]"` even when it is also listed in `protect`. A present field listed only in `protect` ends masked once per listing, so masked exactly once when listed once |
| `Redaction.RedactProtectFault` | modules/jpos/src/org/jpos/util/ProtectedLogListener.java:97-102 | a protect-pass exception at position j skips the rest of the protect pass and the whole wipe pass. The clone equals the exception-free redaction with the first j protect fields and no wipe fields. Every field not listed in `protect` keeps its clear value, even one listed in `wipe` |
| `Redaction.RedactWipeFault` | modules/jpos/src/org/jpos/util/ProtectedLogListener.java:97-102 | after a completed protect pass, a wipe exception at position k leaves the clone equal to the exception-free redaction with the first k wipe fields. The exception carries `"[WIPED]"` |
| `FieldList.ParseTokens` | modules/jpos/src/org/jpos/util/ProtectedLogListener.java:87-88 | a successful parse gives one in-range field number per token, each the token's decimal value. A failed parse has a token that is not an in-range decimal |
| `FieldList.ToIntArrayRoundTrip` | modules/jpos/src/org/jpos/util/ProtectedLogListener.java:87-88 | a list of field numbers within `int` range, written blank-separated, parses back to the same list |
| `FieldList.SignsAndTabsRefused` | modules/jpos/src/org/jpos/util/ProtectedLogListener.java:77-78 | a signed token, or a list separated by a tab or a newline, does not parse |
| `FieldList.BlankIsEmptyList` | modules/jpos/src/org/jpos/util/ProtectedLogListener.java:87-88 | the default `""`, or any blank text, gives an empty field list |
| `Events.LogEvent.AddMessage` | modules/jpos/src/org/jpos/util/ProtectedLogListener.java:101 | appends exactly one item to the end of the payload |
| `Events.LogEvent.SetElementAt` | modules/jpos/src/org/jpos/util/ProtectedLogListener.java:103 | replaces the item at one index and changes nothing else |
| `ProtectedLog.RaisedBy` | modules/jpos/src/org/jpos/util/ProtectedLogListener.java:100-102 | at most one exception is added per item, every added item is an exception from a failing set, and the exception of every message whose redaction threw is among them |
| `ProtectedLog.RaisedByInOrder` | modules/jpos/src/org/jpos/util/ProtectedLogListener.java:93-102 | the added exceptions are exactly those of the messages whose redaction threw, one per such message, in payload order |
| `ProtectedLog.Filtered` | modules/jpos/src/org/jpos/util/ProtectedLogListener.java:91-106 | below the size on entry, a non-message item is unchanged and a message is replaced at the same index by its redacted clone. What follows is only added exceptions from failing sets, at most one per item, and it holds the exception of every message whose redaction threw |
| `ProtectedLog.FilteredRaisesInOrder` | modules/jpos/src/org/jpos/util/ProtectedLogListener.java:93-105 | after the items present on entry, the payload holds exactly the exceptions of the messages whose redaction threw, one each, in the order of those messages |
| `ProtectedLog.FilteredWithEmptyLists` | modules/jpos/src/org/jpos/util/ProtectedLogListener.java:83-89 | with both lists empty (the defaults), log leaves the payload exactly as it was |
| `ProtectedLog.ProtectedLogListener.constructor` | modules/jpos/src/org/jpos/util/ProtectedLogListener.java:65-71 | a new listener has no field lists and no configuration |
| `ProtectedLog.ProtectedLogListener.SetConfiguration` | modules/jpos/src/org/jpos/util/ProtectedLogListener.java:83-89 | stores `cfg`, then replaces `protectFields` and then `wipeFields` wholesale with the lists parsed from `protect` and `wipe` (default `""`). A list that fails to parse stops the call before its own field is assigned. Success leaves the listener configured |
| `ProtectedLog.ProtectedLogListener.CheckProtected` | modules/jpos/src/org/jpos/util/ProtectedLogListener.java:108-114 | the loop's result and exception are those of the protect pass over `protectFields` |
| `ProtectedLog.ProtectedLogListener.CheckHidden` | modules/jpos/src/org/jpos/util/ProtectedLogListener.java:115-121 | the loop's result and exception are those of the wipe pass over `wipeFields` |
| `ProtectedLog.ProtectedLogListener.Log` | modules/jpos/src/org/jpos/util/ProtectedLogListener.java:90-107 | returns the same event, whose payload becomes `Filtered` of the payload on entry. Only the event is modified |
| `Scenarios.ConfigurationLists` | modules/jpos/src/org/jpos/util/ProtectedLogListener.java:77-78 | the blank-separated texts `"2 48"` and `"35"` parse to `[2, 48]` and `[35]` |
| `Scenarios.DocumentedConfigurationLists` | modules/jpos/src/org/jpos/util/ProtectedLogListener.java:42-43 | the documented properties `"2 35 45 55"` and `"48"` parse to `[2, 35, 45, 55]` and `[48]` |
| `Scenarios.CardFieldsRedacted` | modules/jpos/src/org/jpos/util/ProtectedLogListener.java:97-99 | with no exception, fields 2 and 48 are masked, field 35 is `"[WIPED]"` and the absent field 99 is not created |
| `Scenarios.MissingFieldIgnored` | modules/jpos/src/org/jpos/util/ProtectedLogListener.java:111 | a protected field the message lacks is not created and raises nothing |
| `Scenarios.FaultOnField48` | modules/jpos/src/org/jpos/util/ProtectedLogListener.java:97-103 | when setting field 48 throws, the stored clone has field 2 masked, field 48 unchanged and field 35 still in clear text. The exception follows the clone in the payload |

## Left out

- `modules/q2mod_jpos/src/org/jpos/q2/iso/ChannelAdaptorMBean.java`: a JMX
  interface of getters and setters with no behaviour.
- The `synchronized` modifier on `log`: the model is one sequential call.
- `ISOUtil.protect` is an arbitrary function. Its length behaviour,
  irreversibility and idempotence are not stated, because its code is not
  part of this model. For the same reason, the idempotence of a second
  redaction is not claimed.
- `FieldList.ParseTokens`: `ISOUtil.toIntArray` is not part of this model.
  The parser accepts only blank-separated unsigned decimal tokens up to
  `Integer.MAX_VALUE`. It refuses a signed token and a list separated by
  tabs or newlines, so `SetConfiguration` then returns `ok == false`; the
  real method may accept some of these. Which exception it throws is not
  modelled.
- `ProtectedLog.ProtectedLogListener.SetConfiguration`: the exception that
  escapes when a list does not parse is reported as `ok == false`. Its type,
  `ConfigurationException` or otherwise, is not modelled.
- The internals of `ISOMsg`, `ISOField`, `LogEvent` and `Configuration` are
  not part of this model. A message is a map of string values: binary fields,
  nested messages and `getString` conversions are not modelled. Only the
  `set` call may throw. A set that throws is taken to leave the message
  unchanged.
- Object identity: the clone is a value copy, so the original message
  cannot be changed by the redaction, by construction. The model does not
  capture aliasing of the original message held elsewhere.
- Exceptions other than `ISOException`, which would escape `log`, are not
  modelled. Neither is a non-`String` value in the configuration.
- Calling `log` before `setConfiguration`, which throws a
  NullPointerException in the code, is excluded by the precondition
  `Configured()`.
