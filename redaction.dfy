/** The two field passes ProtectedLogListener runs over each cloned ISOMsg
    (checkProtected, then checkHidden, inside one try block), as functions on
    message values, and what they do to each field. */
module Redaction {
  import opened Iso

  /** The clone as a pass (or both passes) left it, and the ISOException that
      stopped the work, if one was thrown. */
  datatype Outcome = Outcome(fields: Fields, error: Option<IsoException>)

  /** One pass: for each listed field number, in list order, a field the
      message has is set to `rewrite` of its current value; the first set
      that throws ends the pass, leaving the message as it was before that
      set. checkProtected is `Pass(m, protectFields, iso.protect, iso)` and
      checkHidden is `Pass(m, wipeFields, Wipe, iso)`. */
  function Pass(m: Fields, fs: seq<int>, rewrite: string -> string, iso: Collaborators): (r: Outcome)
    decreases |fs|
    ensures r.fields.Keys == m.Keys
    ensures forall f :: f in m && f !in fs ==> r.fields[f] == m[f]
    ensures r.error.Some? ==> r.error.value.field in fs
    ensures r.error.Some? ==> iso.setFails(r.error.value.field, r.error.value.value)
  {
    if fs == [] then Outcome(m, None)
    else
      var f := fs[0];
      if f !in m then Pass(m, fs[1..], rewrite, iso)
      else
        var v := rewrite(m[f]);
        if iso.setFails(f, v) then Outcome(m, Some(IsoException(f, v)))
        else Pass(m[f := v], fs[1..], rewrite, iso)
  }

  /** The body of the try block in ProtectedLogListener.log: the protect pass,
      then, only when it did not throw, the wipe pass. */
  function Redact(m: Fields, protect: seq<int>, wipe: seq<int>, iso: Collaborators): (r: Outcome)
    ensures r.fields.Keys == m.Keys
    ensures forall f :: f in m && f !in protect && f !in wipe ==> r.fields[f] == m[f]
    ensures r.error.Some? ==> iso.setFails(r.error.value.field, r.error.value.value)
  {
    var p := Pass(m, protect, iso.protect, iso);
    if p.error.Some? then p else Pass(p.fields, wipe, Wipe, iso)
  }

  /** How many times `f` is listed in `fs`. */
  function Count(fs: seq<int>, f: int): nat
  {
    if fs == [] then 0 else (if fs[0] == f then 1 else 0) + Count(fs[1..], f)
  }

  /** `g` applied `n` times to `v`. */
  function Iterate(g: string -> string, n: nat, v: string): string
  {
    if n == 0 then v else Iterate(g, n - 1, g(v))
  }

  lemma {:induction false} CountPositive(fs: seq<int>, f: int)
    ensures Count(fs, f) > 0 <==> f in fs
  {
    if fs != [] {
      CountPositive(fs[1..], f);
    }
  }

  lemma {:induction false} IterateWipe(n: nat, v: string)
    ensures Iterate(Wipe, n, v) == if n == 0 then v else WIPED
  {
    if n > 1 {
      IterateWipe(n - 1, Wipe(v));
    }
  }

  /** A pass that threw nothing has applied `rewrite` to a present field once
      per time the field is listed. */
  lemma {:induction false} PassValue(m: Fields, fs: seq<int>, rewrite: string -> string, iso: Collaborators, f: int)
    requires f in m
    requires Pass(m, fs, rewrite, iso).error == None
    ensures Pass(m, fs, rewrite, iso).fields[f] == Iterate(rewrite, Count(fs, f), m[f])
  {
    if fs != [] {
      var g := fs[0];
      if g !in m {
        PassValue(m, fs[1..], rewrite, iso, f);
      } else {
        var m' := m[g := rewrite(m[g])];
        PassValue(m', fs[1..], rewrite, iso, f);
      }
    }
  }

  /** Running a pass over `a + b` is running it over `a` and then, unless that
      threw, over `b`. */
  lemma {:induction false} PassAppend(m: Fields, a: seq<int>, b: seq<int>, rewrite: string -> string, iso: Collaborators)
    ensures Pass(m, a + b, rewrite, iso) ==
      var p := Pass(m, a, rewrite, iso);
      if p.error.Some? then p else Pass(p.fields, b, rewrite, iso)
  {
    if a != [] {
      assert (a + b)[0] == a[0];
      assert (a + b)[1..] == a[1..] + b;
      var g := a[0];
      if g !in m {
        PassAppend(m, a[1..], b, rewrite, iso);
      } else if !iso.setFails(g, rewrite(m[g])) {
        PassAppend(m[g := rewrite(m[g])], a[1..], b, rewrite, iso);
      }
    } else {
      assert a + b == b;
    }
  }

  /** A pass that threw stopped at the first set that failed, at position
      `j` of the list: the message is what the fields listed before `j` made
      of it, the failing field itself was not changed, and no field after
      `j` was visited. */
  lemma {:induction false} PassStopsAtFault(m: Fields, fs: seq<int>, rewrite: string -> string, iso: Collaborators)
    returns (j: nat)
    requires Pass(m, fs, rewrite, iso).error.Some?
    ensures j < |fs|
    ensures var r := Pass(m, fs, rewrite, iso);
      var e := r.error.value;
      fs[j] == e.field &&
      Pass(m, fs[..j], rewrite, iso) == Outcome(r.fields, None) &&
      e.field in r.fields && e.value == rewrite(r.fields[e.field])
  {
    var g := fs[0];
    if g in m && iso.setFails(g, rewrite(m[g])) {
      j := 0;
    } else {
      var m' := if g in m then m[g := rewrite(m[g])] else m;
      var j' := PassStopsAtFault(m', fs[1..], rewrite, iso);
      j := j' + 1;
      assert fs[..j][0] == g;
      assert fs[..j][1..] == fs[1..][..j'];
    }
  }

  /** With no exception, the passes leave each present field as follows: a
      field listed in `wipe` is WIPED whether or not it is also listed in
      `protect` (checkHidden runs after checkProtected), and any other field
      has been masked once per time it is listed in `protect`. */
  lemma RedactFieldValue(m: Fields, protect: seq<int>, wipe: seq<int>, iso: Collaborators, f: int)
    requires f in m
    requires Redact(m, protect, wipe, iso).error == None
    ensures Redact(m, protect, wipe, iso).fields[f] ==
      if f in wipe then WIPED else Iterate(iso.protect, Count(protect, f), m[f])
    ensures f !in wipe && Count(protect, f) == 1 ==>
      Redact(m, protect, wipe, iso).fields[f] == iso.protect(m[f])
  {
    var p := Pass(m, protect, iso.protect, iso);
    PassValue(m, protect, iso.protect, iso, f);
    PassValue(p.fields, wipe, Wipe, iso, f);
    CountPositive(wipe, f);
    IterateWipe(Count(wipe, f), p.fields[f]);
  }

  /** When a protect set throws, the wipe pass does not run at all: the stored
      clone is what the protect fields listed before the failing one made of
      the message, the failing field keeps its value, and every field not
      listed in `protect` keeps its original value, even one listed in
      `wipe`. */
  lemma RedactProtectFault(m: Fields, protect: seq<int>, wipe: seq<int>, iso: Collaborators) returns (j: nat)
    requires Pass(m, protect, iso.protect, iso).error.Some?
    ensures var r := Redact(m, protect, wipe, iso);
      r.error.Some? && j < |protect| && protect[j] == r.error.value.field &&
      Redact(m, protect[..j], [], iso) == Outcome(r.fields, None) &&
      protect[j] in r.fields && r.error.value.value == iso.protect(r.fields[protect[j]])
    ensures forall f :: f in m && f !in protect ==> Redact(m, protect, wipe, iso).fields[f] == m[f]
  {
    j := PassStopsAtFault(m, protect, iso.protect, iso);
  }

  /** When the protect pass completes and a wipe set throws, the stored clone
      is what the wipe fields listed before the failing one made of it, and
      the failing field keeps its (already protected) value. */
  lemma RedactWipeFault(m: Fields, protect: seq<int>, wipe: seq<int>, iso: Collaborators) returns (k: nat)
    requires Pass(m, protect, iso.protect, iso).error == None
    requires Redact(m, protect, wipe, iso).error.Some?
    ensures var r := Redact(m, protect, wipe, iso);
      k < |wipe| && wipe[k] == r.error.value.field && r.error.value.value == WIPED &&
      Redact(m, protect, wipe[..k], iso) == Outcome(r.fields, None) && wipe[k] in r.fields
  {
    var p := Pass(m, protect, iso.protect, iso);
    k := PassStopsAtFault(p.fields, wipe, Wipe, iso);
  }
}
