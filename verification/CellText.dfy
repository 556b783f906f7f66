/** The documented text of a dumpsys dump, written out, and what the parser makes of it. */
module CellText {
  import opened Options
  import opened Wire
  import opened TextScan
  import opened CellParser

  /** An LTE cell, and whatever text comes before it. */
  datatype Entry = Entry(lead: string, mcc: i32, mnc: i32, ci: i32, pci: i32, tac: i32, earfcn: i32)

  function CellLine(e: Entry): string
  {
    "CellIdentityLte:{mMcc=" + Decimal(e.mcc) + " mMnc=" + Decimal(e.mnc) + " mCi=" + Decimal(e.ci) +
    " mPci=" + Decimal(e.pci) + " mTac=" + Decimal(e.tac) + " mEarfcn=" + Decimal(e.earfcn) + "}"
  }

  function Dump(entries: seq<Entry>, tail: string): string
  {
    if entries == [] then tail else entries[0].lead + CellLine(entries[0]) + Dump(entries[1..], tail)
  }

  /** Text that mentions neither a cell nor an attribute. */
  ghost predicate Other(text: string)
  {
    forall k: nat ::
      && !Occurs("CellIdentityLte", text, k)
      && !Occurs("mMcc=", text, k) && !Occurs("mMnc=", text, k) && !Occurs("mCi=", text, k)
      && !Occurs("mPci=", text, k) && !Occurs("mTac=", text, k) && !Occurs("mEarfcn=", text, k)
  }

  ghost predicate Documented(entries: seq<Entry>, tail: string)
  {
    Other(tail) && forall i :: 0 <= i < |entries| ==> Other(entries[i].lead)
  }

  // ---- The same text as the parser's printer gives ----

  function Fields(e: Entry): seq<Field>
  {
    [Field(Mcc, e.mcc), Field(Mnc, e.mnc), Field(Ci, e.ci), Field(Pci, e.pci), Field(Tac, e.tac), Field(Earfcn, e.earfcn)]
  }

  function AsPrinted(entries: seq<Entry>): (cells: seq<Printed>)
    ensures |cells| == |entries|
    ensures forall i :: 0 <= i < |cells| ==> cells[i] == Printed(entries[i].lead, Fields(entries[i]))
  {
    if entries == [] then []
    else [Printed(entries[0].lead, Fields(entries[0]))] + AsPrinted(entries[1..])
  }

  lemma FieldsTextNext(fields: seq<Field>)
    requires |fields| > 1
    ensures FieldsText(fields) == KeyText(fields[0].key) + Decimal(fields[0].value) + " " + FieldsText(fields[1..])
  {
    hide KeyText, Decimal;
  }

  lemma FieldsTextLast(field: Field)
    ensures FieldsText([field]) == KeyText(field.key) + Decimal(field.value) + "}"
  {
    hide KeyText, Decimal;
    assert [field][1..] == [];
  }

  function Name(n: nat): string
    requires n < 6
  {
    ["mMcc=", "mMnc=", "mCi=", "mPci=", "mTac=", "mEarfcn="][n]
  }

  function Number(e: Entry, n: nat): string
    requires n < 6
  {
    Decimal([e.mcc, e.mnc, e.ci, e.pci, e.tac, e.earfcn][n])
  }

  /** The line up to attribute n's number. */
  function Prefix(e: Entry, n: nat): string
    requires n < 6
  {
    if n == 0 then "CellIdentityLte:{mMcc=" else Prefix(e, n - 1) + Number(e, n - 1) + (" " + Name(n))
  }

  /** That number, and the attributes after it. */
  function Suffix(e: Entry, n: nat): string
    requires n < 6
    decreases 6 - n
  {
    if n == 5 then Number(e, n) + "}" else Number(e, n) + " " + (Name(n + 1) + Suffix(e, n + 1))
  }

  lemma FieldsSpelt(e: Entry)
    ensures FieldsText(Fields(e)) == "mMcc=" + Suffix(e, 0)
  {
    FieldsTextFrom(e, 0);
    assert Fields(e)[0..] == Fields(e);
  }

  lemma {:induction false} FieldsTextFrom(e: Entry, n: nat)
    requires n < 6
    ensures FieldsText(Fields(e)[n..]) == Name(n) + Suffix(e, n)
    decreases 6 - n
  {
    var here := Fields(e)[n..];
    assert KeyText(here[0].key) == Name(n) && Decimal(here[0].value) == Number(e, n);
    hide Name, Number, KeyText, Decimal, FieldsText;
    if n == 5 {
      assert here == [Fields(e)[5]];
      FieldsTextLast(here[0]);
      Regrouped("", Number(e, n), Name(n), "");
    } else {
      FieldsTextFrom(e, n + 1);
      assert here[1..] == Fields(e)[n + 1..];
      FieldsTextNext(here);
      Regrouped("", Number(e, n), Name(n), Name(n + 1) + Suffix(e, n + 1));
    }
  }

  lemma Regrouped(x: string, a: string, key: string, rest: string)
    ensures x + a + (" " + key) + rest == x + (a + " " + (key + rest))
    ensures key + (a + " " + rest) == key + a + " " + rest
    ensures x + a + "}" == x + (a + "}") && key + (a + "}") == key + a + "}"
  {
  }

  lemma Shifted(e: Entry, n: nat)
    requires n < 5
    ensures Prefix(e, n + 1) + Suffix(e, n + 1) == Prefix(e, n) + Suffix(e, n)
  {
    hide Name, Number;
    Regrouped(Prefix(e, n), Number(e, n), Name(n + 1), Suffix(e, n + 1));
  }

  lemma FirstParts(e: Entry)
    ensures Prefix(e, 3) == "CellIdentityLte:{mMcc=" + Decimal(e.mcc) + " mMnc=" + Decimal(e.mnc) + " mCi=" + Decimal(e.ci) + " mPci="
  {
    hide Decimal;
    assert Prefix(e, 1) == "CellIdentityLte:{mMcc=" + Decimal(e.mcc) + " mMnc=";
    assert Prefix(e, 2) == Prefix(e, 1) + Decimal(e.mnc) + " mCi=";
    assert Prefix(e, 3) == Prefix(e, 2) + Decimal(e.ci) + " mPci=";
  }

  lemma LineParts(e: Entry)
    ensures CellLine(e) == Prefix(e, 5) + Suffix(e, 5)
  {
    FirstParts(e);
    hide Decimal;
    assert Prefix(e, 4) == Prefix(e, 3) + Decimal(e.pci) + " mTac=";
    assert Prefix(e, 5) == Prefix(e, 4) + Decimal(e.tac) + " mEarfcn=";
    assert CellLine(e) == Prefix(e, 5) + Decimal(e.earfcn) + "}";
    assert Suffix(e, 5) == Decimal(e.earfcn) + "}";
    hide *;
    Regrouped(Prefix(e, 5), Decimal(e.earfcn), "", "");
  }

  /** Behind its marker a cell is what the parser's printer gives. */
  lemma LineSpelt(e: Entry)
    ensures CellLine(e) == MARKER + Inner(Fields(e))
  {
    assert Prefix(e, 0) == "CellIdentityLte:{mMcc=";
    hide Prefix, Suffix, FieldsText, Fields, CellLine;
    LineParts(e);
    Shifted(e, 4);
    Shifted(e, 3);
    Shifted(e, 2);
    Shifted(e, 1);
    Shifted(e, 0);
    FieldsSpelt(e);
    Marker(Suffix(e, 0));
  }

  lemma Marker(rest: string)
    ensures "CellIdentityLte:{mMcc=" + rest == MARKER + (":{" + ("mMcc=" + rest))
  {
  }

  lemma {:induction false} DumpIsText(entries: seq<Entry>, tail: string)
    ensures Dump(entries, tail) == Text(AsPrinted(entries), tail)
  {
    if entries != [] {
      var cells := AsPrinted(entries);
      DumpIsText(entries[1..], tail);
      LineSpelt(entries[0]);
      hide CellLine, Inner, Fields;
      var inner, rest := Inner(Fields(entries[0])), Dump(entries[1..], tail);
      assert cells[1..] == AsPrinted(entries[1..]);
      Spliced(entries[0].lead, inner, rest);
    }
  }

  lemma Spliced(lead: string, inner: string, rest: string)
    ensures lead + (MARKER + inner) + rest == lead + Marked(inner, rest)
  {
  }

  lemma OtherIsPlain(text: string)
    ensures Other(text) ==> Plain(text)
  {
    hide Occurs;
    if Other(text) {
      forall k: nat, key ensures !Occurs(KeyText(key), text, k) {
        match key
        case Mcc =>
        case Mnc =>
        case Ci =>
        case Pci =>
        case Tac =>
        case Earfcn =>
      }
    }
  }

  /** However many cells are printed, between whatever other text: each one the parser has
      room for comes back number by number, with the constants it assumes beside them. */
  lemma CellsRecovered(entries: seq<Entry>, tail: string, was: seq<Cell>, now: seq<Cell>, n: nat, i: nat)
    requires Documented(entries, tail)
    requires Scanned(Dump(entries, tail), was, now, n) && i < n
    ensures |Markers(Dump(entries, tail))| == |entries|
    ensures i < |entries| && i < |now| == |was|
    ensures now[i].mcc == entries[i].mcc && now[i].mnc == entries[i].mnc
    ensures now[i].cidOrCi == entries[i].ci && now[i].pciOrPsc == entries[i].pci
    ensures now[i].lacOrTac == entries[i].tac && now[i].earfcn == entries[i].earfcn
    ensures now[i].radio == 12 && now[i].status == 1 && now[i].asu == was[i].asu
    ensures now[i].dbm == -95 && now[i].rsrp == -105 && now[i].rsrq == -12 && now[i].rssnr == 15
  {
    var text, cells := Dump(entries, tail), AsPrinted(entries);
    DumpIsText(entries, tail);
    WellPrintedDump(entries, tail);
    assert Filled(text[Markers(text)[i]..], was[i], now[i]);
    hide Documented, WellPrinted, Dump, AsPrinted, MarkersFrom, Read;
    ParseInvertsPrint(cells, tail, was, now, n, i, Mcc);
    Recovered(entries[i], cells, tail, was, now, n, i);
  }

  lemma Recovered(e: Entry, cells: seq<Printed>, tail: string, was: seq<Cell>, now: seq<Cell>, n: nat, i: nat)
    requires WellPrinted(cells, tail)
    requires Scanned(Text(cells, tail), was, now, n) && i < n && i < |cells| && i < |now|
    requires cells[i].fields == Fields(e)
    ensures now[i].mcc == e.mcc && now[i].mnc == e.mnc && now[i].cidOrCi == e.ci
    ensures now[i].pciOrPsc == e.pci && now[i].lacOrTac == e.tac && now[i].earfcn == e.earfcn
  {
    AllListed(e);
    hide Scanned, WellPrinted, Fields, Lookup, Text;
    CompleteCellRecovered(cells, tail, was, now, n, i);
    assert now[i].Get(Mcc) == e.mcc && now[i].Get(Mnc) == e.mnc;
    assert now[i].Get(Ci) == e.ci && now[i].Get(Pci) == e.pci;
    assert now[i].Get(Tac) == e.tac && now[i].Get(Earfcn) == e.earfcn;
  }

  lemma AllListed(e: Entry)
    ensures forall key :: Lookup(Fields(e), key).Some?
    ensures Lookup(Fields(e), Mcc).value == e.mcc && Lookup(Fields(e), Mnc).value == e.mnc
    ensures Lookup(Fields(e), Ci).value == e.ci && Lookup(Fields(e), Pci).value == e.pci
    ensures Lookup(Fields(e), Tac).value == e.tac && Lookup(Fields(e), Earfcn).value == e.earfcn
  {
    forall key ensures Lookup(Fields(e), key) == Some(match key
      case Mcc => e.mcc case Mnc => e.mnc case Ci => e.ci case Pci => e.pci case Tac => e.tac case Earfcn => e.earfcn)
    {
      ListedLast(e, key);
    }
  }

  lemma ListedLast(e: Entry, key: Key)
    ensures Lookup(Fields(e), key) == Some(match key
              case Mcc => e.mcc case Mnc => e.mnc case Ci => e.ci case Pci => e.pci case Tac => e.tac case Earfcn => e.earfcn)
  {
    var all := Fields(e);
    assert all[1..] == [Field(Mnc, e.mnc), Field(Ci, e.ci), Field(Pci, e.pci), Field(Tac, e.tac), Field(Earfcn, e.earfcn)];
    var last := all[1..][1..];
    assert last == [Field(Ci, e.ci), Field(Pci, e.pci), Field(Tac, e.tac), Field(Earfcn, e.earfcn)];
    assert last[1..] == [Field(Pci, e.pci), Field(Tac, e.tac), Field(Earfcn, e.earfcn)];
    assert last[1..][1..] == [Field(Tac, e.tac), Field(Earfcn, e.earfcn)];
    assert last[1..][1..][1..] == [Field(Earfcn, e.earfcn)];
    assert Lookup(all, key) == if key == Mcc then Some(e.mcc) else if key == Mnc then Some(e.mnc) else Lookup(last, key);
    assert Lookup(last, key) == if key == Ci then Some(e.ci) else if key == Pci then Some(e.pci) else Lookup(last[1..][1..], key);
  }

  lemma WellPrintedDump(entries: seq<Entry>, tail: string)
    requires Documented(entries, tail)
    ensures WellPrinted(AsPrinted(entries), tail)
  {
    hide Other, Plain;
    OtherIsPlain(tail);
    var cells := AsPrinted(entries);
    forall cell | cell in cells ensures Plain(cell.lead) {
      var i :| 0 <= i < |cells| && cells[i] == cell;
      OtherIsPlain(entries[i].lead);
    }
  }
}
