/** ProtectedLogListener: a jPOS log listener, placed before the listeners
    that persist events, that replaces every ISOMsg of an event's payload by
    a clone whose `protect` fields are masked and whose `wipe` fields read
    "[WIPED]". */
module ProtectedLog {
  import opened Iso
  import opened Redaction
  import opened FieldList
  import opened Events

  /** What log stores at the index of a payload item: a message becomes its
      redacted clone, anything else stays as it is. */
  function RedactItem(x: Item, protect: seq<int>, wipe: seq<int>, iso: Collaborators): Item
  {
    match x
    case Message(m) => Message(Redact(m, protect, wipe, iso).fields)
    case _ => x
  }

  /** The redaction of `x` threw: `x` is a message and one of its sets
      failed. */
  predicate Faults(x: Item, protect: seq<int>, wipe: seq<int>, iso: Collaborators)
  {
    x.Message? && Redact(x.fields, protect, wipe, iso).error.Some?
  }

  /** The exception log adds to the event for a message whose redaction
      threw. */
  function ErrorOf(x: Item, protect: seq<int>, wipe: seq<int>, iso: Collaborators): Item
    requires Faults(x, protect, wipe, iso)
  {
    Raised(Redact(x.fields, protect, wipe, iso).error.value)
  }

  /** What log appends to the payload for one item: the exception that
      stopped the redaction of a message, if there was one. */
  function FaultsOf(x: Item, protect: seq<int>, wipe: seq<int>, iso: Collaborators): seq<Item>
  {
    if Faults(x, protect, wipe, iso) then [ErrorOf(x, protect, wipe, iso)] else []
  }

  function Redacted(items: seq<Item>, protect: seq<int>, wipe: seq<int>, iso: Collaborators): seq<Item>
  {
    seq(|items|, k requires 0 <= k < |items| => RedactItem(items[k], protect, wipe, iso))
  }

  /** The exceptions log adds while it walks `items`, in the order it meets
      them. */
  function RaisedBy(items: seq<Item>, protect: seq<int>, wipe: seq<int>, iso: Collaborators): (r: seq<Item>)
    ensures |r| <= |items|
    ensures forall k :: 0 <= k < |r| ==> r[k].Raised? && iso.setFails(r[k].exception.field, r[k].exception.value)
    ensures forall k :: 0 <= k < |items| && Faults(items[k], protect, wipe, iso) ==>
      ErrorOf(items[k], protect, wipe, iso) in r
  {
    if items == [] then []
    else
      var n := |items| - 1;
      var front := items[..n];
      assert forall k :: 0 <= k < n ==> front[k] == items[k];
      RaisedBy(front, protect, wipe, iso) + FaultsOf(items[n], protect, wipe, iso)
  }

  /** The payload after log: every item at an index below the size the
      payload had on entry is replaced by RedactItem of it, and the
      exceptions raised along the way follow, in order. */
  function Filtered(items: seq<Item>, protect: seq<int>, wipe: seq<int>, iso: Collaborators): (r: seq<Item>)
    ensures |items| <= |r| <= 2 * |items|
    ensures forall k :: 0 <= k < |items| && !items[k].Message? ==> r[k] == items[k]
    ensures forall k :: 0 <= k < |items| && items[k].Message? ==>
      r[k] == Message(Redact(items[k].fields, protect, wipe, iso).fields)
    ensures forall k :: |items| <= k < |r| ==>
      r[k].Raised? && iso.setFails(r[k].exception.field, r[k].exception.value)
    ensures forall k :: 0 <= k < |items| && Faults(items[k], protect, wipe, iso) ==>
      ErrorOf(items[k], protect, wipe, iso) in r[|items|..]
  {
    var red := Redacted(items, protect, wipe, iso);
    var raised := RaisedBy(items, protect, wipe, iso);
    assert (red + raised)[|items|..] == raised;
    red + raised
  }

  /** The items log appends are exactly the exceptions of the messages whose
      redaction threw, one each, in payload order: position `j` of the
      appended part holds the exception of the message at index `at[j]`,
      the indices increase, and every message that threw is among them. */
  lemma {:induction false} FilteredRaisesInOrder(items: seq<Item>, protect: seq<int>, wipe: seq<int>, iso: Collaborators)
    returns (at: seq<int>)
    ensures var r := Filtered(items, protect, wipe, iso);
      |r| == |items| + |at| &&
      (forall j :: 0 <= j < |at| ==>
        0 <= at[j] < |items| && Faults(items[at[j]], protect, wipe, iso) &&
        r[|items| + j] == ErrorOf(items[at[j]], protect, wipe, iso)) &&
      Increasing(at) &&
      (forall k :: 0 <= k < |items| && Faults(items[k], protect, wipe, iso) ==> k in at)
  {
    at := RaisedByInOrder(items, protect, wipe, iso);
    var r := Filtered(items, protect, wipe, iso);
    assert r == Redacted(items, protect, wipe, iso) + RaisedBy(items, protect, wipe, iso);
  }

  lemma {:induction false} RaisedByInOrder(items: seq<Item>, protect: seq<int>, wipe: seq<int>, iso: Collaborators)
    returns (at: seq<int>)
    ensures var r := RaisedBy(items, protect, wipe, iso);
      |r| == |at| &&
      (forall j :: 0 <= j < |at| ==>
        0 <= at[j] < |items| && Faults(items[at[j]], protect, wipe, iso) &&
        r[j] == ErrorOf(items[at[j]], protect, wipe, iso)) &&
      Increasing(at) &&
      (forall k :: 0 <= k < |items| && Faults(items[k], protect, wipe, iso) ==> k in at)
  {
    if items == [] {
      at := [];
    } else {
      var n := |items| - 1;
      var front := items[..n];
      var at' := RaisedByInOrder(front, protect, wipe, iso);
      var r' := RaisedBy(front, protect, wipe, iso);
      var r := RaisedBy(items, protect, wipe, iso);
      assert r == r' + FaultsOf(items[n], protect, wipe, iso);
      assert forall k :: 0 <= k < n ==> front[k] == items[k];
      if Faults(items[n], protect, wipe, iso) {
        at := at' + [n];
        IncreasingSnoc(at', n);
        forall j | 0 <= j < |at|
          ensures 0 <= at[j] < |items| && Faults(items[at[j]], protect, wipe, iso)
          ensures r[j] == ErrorOf(items[at[j]], protect, wipe, iso)
        {
          if j < |at'| {
            var k := at'[j];
            assert at[j] == k && r[j] == r'[j];
            assert r'[j] == ErrorOf(front[k], protect, wipe, iso) && front[k] == items[k];
          } else {
            assert at[j] == n && r[j] == r[|r'|];
          }
        }
        forall k | 0 <= k < |items| && Faults(items[k], protect, wipe, iso) ensures k in at {
          if k < n {
            assert front[k] == items[k];
            assert k in at';
            var x :| 0 <= x < |at'| && at'[x] == k;
            assert at[x] == k;
          } else {
            assert at[|at'|] == k;
          }
        }
      } else {
        at := at';
        assert r == r';
        forall k | 0 <= k < |items| && Faults(items[k], protect, wipe, iso) ensures k in at {
          assert k != n;
        }
      }
    }
  }

  /** The indices in `s` strictly increase. */
  ghost predicate Increasing(s: seq<int>)
  {
    forall j, j' :: 0 <= j < j' < |s| ==> s[j] < s[j']
  }

  lemma IncreasingSnoc(s: seq<int>, n: int)
    requires Increasing(s)
    requires forall j :: 0 <= j < |s| ==> s[j] < n
    ensures Increasing(s + [n])
  {
  }

  /** With both field lists empty, log replaces every message by an
      unchanged clone and adds nothing. */
  lemma {:induction false} FilteredWithEmptyLists(items: seq<Item>, iso: Collaborators)
    ensures Filtered(items, [], [], iso) == items
  {
    if items != [] {
      var n := |items| - 1;
      FilteredWithEmptyLists(items[..n], iso);
      assert RaisedBy(items, [], [], iso) == RaisedBy(items[..n], [], [], iso);
    }
  }

  /** How one step of log extends the redacted prefix and the raised
      exceptions. */
  lemma LogStep(items: seq<Item>, i: nat, protect: seq<int>, wipe: seq<int>, iso: Collaborators)
    requires i < |items|
    ensures var x := items[i];
      Redacted(items[..i + 1], protect, wipe, iso) + items[i + 1..] ==
        (Redacted(items[..i], protect, wipe, iso) + items[i..])[i := RedactItem(x, protect, wipe, iso)]
    ensures RaisedBy(items[..i + 1], protect, wipe, iso) ==
      RaisedBy(items[..i], protect, wipe, iso) + FaultsOf(items[i], protect, wipe, iso)
  {
    assert items[..i + 1][..i] == items[..i];
  }

  /** When log has visited every item present on entry, the payload is the
      filtered one. */
  lemma LogDone(items: seq<Item>, protect: seq<int>, wipe: seq<int>, iso: Collaborators)
    ensures var n := |items|;
      Redacted(items[..n], protect, wipe, iso) + items[n..] + RaisedBy(items[..n], protect, wipe, iso) ==
        Filtered(items, protect, wipe, iso)
  {
    assert items[..|items|] == items;
    assert items[|items|..] == [];
  }

  /** A step of the proof of log (like LogStep and LogDone): replacing an
      item in the front part of a concatenation. */
  lemma UpdateFront(s: seq<Item>, t: seq<Item>, i: nat, x: Item)
    requires i < |s|
    ensures (s + t)[i := x] == s[i := x] + t
  {
  }

  class ProtectedLogListener {
    var protectFields: Option<seq<int>>
    var wipeFields: Option<seq<int>>
    var cfg: Option<Configuration>

    /** Both field lists are set, as setConfiguration sets them. */
    predicate Configured()
      reads this
    {
      protectFields.Some? && wipeFields.Some?
    }

    constructor ()
      ensures protectFields == None && wipeFields == None && cfg == None
    {
      protectFields, wipeFields, cfg := None, None, None;
    }

    /** setConfiguration: remember `cfg`, then replace the protect list and
        then the wipe list with the ones parsed from the `protect` and `wipe`
        properties (an absent property reads as ""). A list that does not
        parse ends the call (`ok` is false) before its field is assigned. */
    method SetConfiguration(cfg: Configuration) returns (ok: bool)
      modifies this
      ensures this.cfg == Some(cfg)
      ensures var p := ToIntArray(Get(cfg, "protect", ""));
        var w := ToIntArray(Get(cfg, "wipe", ""));
        ok == (p.Some? && w.Some?) &&
        protectFields == (if p.Some? then p else old(protectFields)) &&
        wipeFields == (if ok then w else old(wipeFields))
      ensures ok ==> Configured()
    {
      this.cfg := Some(cfg);
      var p := ToIntArray(Get(cfg, "protect", ""));
      if p.None? {
        return false;
      }
      protectFields := p;
      var w := ToIntArray(Get(cfg, "wipe", ""));
      if w.None? {
        return false;
      }
      wipeFields := w;
      ok := true;
    }

    /** checkProtected: set every present field listed in protectFields, in
        order, to its protected value; the first set that throws ends it. */
    method CheckProtected(m: Fields, iso: Collaborators) returns (m': Fields, e: Option<IsoException>)
      requires protectFields.Some?
      ensures Outcome(m', e) == Pass(m, protectFields.value, iso.protect, iso)
    {
      var fields := protectFields.value;
      m', e := m, None;
      for i := 0 to |fields|
        invariant Pass(m, fields, iso.protect, iso) == Pass(m', fields[i..], iso.protect, iso)
      {
        var f := fields[i];
        if f in m' {
          var v := iso.protect(m'[f]);
          if iso.setFails(f, v) {
            e := Some(IsoException(f, v));
            return;
          }
          m' := m'[f := v];
        }
      }
    }

    /** checkHidden: set every present field listed in wipeFields, in order,
        to "[WIPED]"; the first set that throws ends it. */
    method CheckHidden(m: Fields, iso: Collaborators) returns (m': Fields, e: Option<IsoException>)
      requires wipeFields.Some?
      ensures Outcome(m', e) == Pass(m, wipeFields.value, Wipe, iso)
    {
      var fields := wipeFields.value;
      m', e := m, None;
      for i := 0 to |fields|
        invariant Pass(m, fields, Wipe, iso) == Pass(m', fields[i..], Wipe, iso)
      {
        var f := fields[i];
        if f in m' {
          if iso.setFails(f, WIPED) {
            e := Some(IsoException(f, WIPED));
            return;
          }
          m' := m'[f := WIPED];
        }
      }
    }

    /** log: for each index below the payload size on entry, replace an
        ISOMsg by its redacted clone; an ISOException from either pass is
        added to the event and the partly redacted clone is stored all the
        same. The same event is returned. */
    method Log(ev: LogEvent, iso: Collaborators) returns (r: LogEvent)
      requires Configured()
      modifies ev
      ensures r == ev
      ensures ev.payload == Filtered(old(ev.payload), protectFields.value, wipeFields.value, iso)
    {
      var protect, wipe := protectFields.value, wipeFields.value;
      ghost var items := ev.payload;
      var size := |ev.payload|;
      for i := 0 to size
        invariant ev.payload ==
          Redacted(items[..i], protect, wipe, iso) + items[i..] + RaisedBy(items[..i], protect, wipe, iso)
      {
        ghost var front := Redacted(items[..i], protect, wipe, iso) + items[i..];
        ghost var raised := RaisedBy(items[..i], protect, wipe, iso);
        assert front[i] == items[i];
        LogStep(items, i, protect, wipe, iso);
        var obj := ev.payload[i];
        if obj.Message? {
          var m, e := CheckProtected(obj.fields, iso);
          if e.None? {
            m, e := CheckHidden(m, iso);
          }
          assert Outcome(m, e) == Redact(obj.fields, protect, wipe, iso);
          if e.Some? {
            ev.AddMessage(Raised(e.value));
          }
          assert ev.payload == front + (raised + FaultsOf(obj, protect, wipe, iso));
          ev.SetElementAt(Message(m), i);
          UpdateFront(front, raised + FaultsOf(obj, protect, wipe, iso), i, Message(m));
        } else {
          assert front[i := obj] == front;
        }
      }
      LogDone(items, protect, wipe, iso);
      r := ev;
    }
  }
}
