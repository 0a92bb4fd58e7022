/** Worked examples of ProtectedLogListener on a message carrying a card
    number (field 2), track-2 data (field 35) and additional data (field 48),
    with the listener configured as `protect="2 48"` and `wipe="35"`. The
    masking function is left arbitrary. */
module Scenarios {
  import opened Iso
  import opened Redaction
  import opened FieldList
  import opened ProtectedLog

  const PAN: string := "4111111111111111"
  const TRACK2: string := "41111111=2512101"
  const ADDITIONAL: string := "additional data"

  function CardMessage(): Fields
  {
    map[2 := PAN, 35 := TRACK2, 48 := ADDITIONAL]
  }

  /** The configuration texts give the lists [2, 48] and [35]. */
  lemma ConfigurationLists()
    ensures ToIntArray("2 48") == Some([2, 48])
    ensures ToIntArray("35") == Some([35])
  {
    ToIntArrayRoundTrip([2, 48]);
    assert Decimal(2) == "2" && Decimal(48) == "48";
    assert Join([2, 48]) == "2 48";
    ToIntArrayRoundTrip([35]);
    assert Decimal(35) == "35";
  }

  /** The properties of the documented listener configuration,
      `protect="2 35 45 55"` and `wipe="48"`, give the lists [2, 35, 45, 55]
      and [48]. */
  lemma DocumentedConfigurationLists()
    ensures ToIntArray("2 35 45 55") == Some([2, 35, 45, 55])
    ensures ToIntArray("48") == Some([48])
  {
    assert Decimal(2) == "2" && Decimal(35) == "35" && Decimal(45) == "45" && Decimal(55) == "55";
    assert Join([55]) == "55";
    assert Join([45, 55]) == "45 55";
    assert Join([35, 45, 55]) == "35 45 55";
    assert Join([2, 35, 45, 55]) == "2 35 45 55";
    ToIntArrayRoundTrip([2, 35, 45, 55]);
    assert Decimal(48) == "48";
    ToIntArrayRoundTrip([48]);
  }

  /** No set throws: fields 2 and 48 are masked, field 35 is wiped, and the
      absent field 99 is not created. */
  lemma CardFieldsRedacted(mask: string -> string)
    ensures var r := Redact(CardMessage(), [2, 48], [35], Collaborators(mask, (f, v) => false));
      r.error == None &&
      r.fields == map[2 := mask(PAN), 35 := WIPED, 48 := mask(ADDITIONAL)] &&
      99 !in r.fields
  {
  }

  /** A protect list naming a field the message lacks neither creates it nor
      raises anything. */
  lemma MissingFieldIgnored(mask: string -> string)
    ensures var r := Redact(map[35 := TRACK2, 48 := ADDITIONAL], [2, 48], [35], Collaborators(mask, (f, v) => false));
      r.error == None && 2 !in r.fields &&
      r.fields == map[35 := WIPED, 48 := mask(ADDITIONAL)]
  {
  }

  /** Setting field 48 throws: the event gains the exception after the
      stored clone, field 2 is masked, field 48 keeps its value, and, because
      one try block holds both passes, field 35 is not wiped and stays in
      clear text. */
  lemma FaultOnField48(mask: string -> string)
    ensures var iso := Collaborators(mask, (f, v) => f == 48);
      var masked := CardMessage()[2 := mask(PAN)];
      Redact(CardMessage(), [2, 48], [35], iso) ==
        Outcome(masked, Some(IsoException(48, mask(ADDITIONAL)))) &&
      masked[35] == TRACK2 &&
      Filtered([Message(CardMessage())], [2, 48], [35], iso) ==
        [Message(masked), Raised(IsoException(48, mask(ADDITIONAL)))]
  {
  }
}
