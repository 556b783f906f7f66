/** The LTE cells found in the text of `dumpsys telephony.registry`. */
module CellParser {
  import opened Options
  import opened Wire
  import opened TextScan

  const MARKER := "CellIdentityLte"
  const RADIO_TECH_LTE: byte := 12
  const CELL_CONN_PRIMARY: byte := 1

  /** CellTowerMetric. */
  datatype Cell = Cell(
    radio: byte, status: byte, dbm: i32, rsrp: i32, rsrq: i32, rssnr: i32, asu: i32,
    mcc: i32, mnc: i32, lacOrTac: i32, cidOrCi: i32, pciOrPsc: i32, earfcn: i32)
  {
    function Get(key: Key): i32
    {
      match key
      case Mcc => mcc
      case Mnc => mnc
      case Ci => cidOrCi
      case Pci => pciOrPsc
      case Tac => lacOrTac
      case Earfcn => earfcn
    }
  }

  /** The identity attributes looked for. */
  datatype Key = Mcc | Mnc | Ci | Pci | Tac | Earfcn

  function KeyText(key: Key): (text: string)
    ensures text != ""
  {
    match key
    case Mcc => "mMcc="
    case Mnc => "mMnc="
    case Ci => "mCi="
    case Pci => "mPci="
    case Tac => "mTac="
    case Earfcn => "mEarfcn="
  }

  // ---- Reading one attribute ----

  /** The number behind the first occurrence of the key, which may lie beyond this cell. */
  function Read(text: string, key: Key): Option<i32>
  {
    match Find(text, KeyText(key))
    case None => None
    case Some(at) => ScanInt(text[at + |KeyText(key)|..])
  }

  /** The cell filled in from the text that starts at its marker. */
  ghost predicate Filled(text: string, before: Cell, after: Cell)
  {
    && after.radio == RADIO_TECH_LTE && after.status == CELL_CONN_PRIMARY
    && after.dbm == -95 && after.rsrp == -105 && after.rsrq == -12 && after.rssnr == 15
    && after.asu == before.asu
    && forall key ::
         after.Get(key) == (match Read(text, key) case Some(v) => v case None => before.Get(key))
  }

  /** One pair of strstr and sscanf; the destination keeps its value when either finds nothing. */
  method ReadAttribute(text: string, key: Key, previous: i32) returns (value: i32)
    ensures value == (match Read(text, key) case Some(v) => v case None => previous)
  {
    hide Find, ScanInt;
    value := previous;
    var at := Find(text, KeyText(key));
    if at.Some? {
      var number := ScanInt(text[at.value + |KeyText(key)|..]);
      if number.Some? {
        value := number.value;
      }
    }
  }

  // ---- The marker scan ----

  /** Every position from `from` on where the marker occurs, tried one by one. */
  function MarkersFrom(text: string, from: nat): (positions: seq<nat>)
    requires from <= |text|
    ensures forall i :: 0 <= i < |positions| ==> from <= positions[i] <= |text| && Occurs(MARKER, text, positions[i])
    decreases |text| - from
  {
    if from == |text| then
      []
    else
      (if Occurs(MARKER, text, from) then [from] else []) + MarkersFrom(text, from + 1)
  }

  function Markers(text: string): seq<nat>
  {
    MarkersFrom(text, 0)
  }

  lemma {:induction false} MarkersAscend(text: string, from: nat)
    requires from <= |text|
    ensures forall i, j :: 0 <= i < j < |MarkersFrom(text, from)| ==> MarkersFrom(text, from)[i] < MarkersFrom(text, from)[j]
    decreases |text| - from
  {
    if from < |text| {
      hide Occurs;
      MarkersAscend(text, from + 1);
    }
  }

  lemma {:induction false} MarkersComplete(text: string, from: nat, p: nat)
    requires from <= p && Occurs(MARKER, text, p)
    ensures from <= |text| && p in MarkersFrom(text, from)
    decreases p - from
  {
    OccursChar(MARKER, text, p, 0);
    if from < p {
      hide Occurs;
      MarkersComplete(text, from + 1, p);
    }
  }

  /** The marker has no border: no occurrence begins inside another. */
  lemma NoOverlap(text: string, p: nat, q: nat)
    requires Occurs(MARKER, text, p) && p < q < p + |MARKER|
    ensures !Occurs(MARKER, text, q)
  {
    hide Occurs;
    OccursChar(MARKER, text, p, q - p);
    assert MARKER[q - p] != 'C';
    if Occurs(MARKER, text, q) {
      OccursChar(MARKER, text, q, 0);
    }
  }

  lemma {:induction false} MarkersSkip(text: string, from: nat, to: nat)
    requires from <= to <= |text|
    requires forall p: nat :: from <= p < to ==> !Occurs(MARKER, text, p)
    ensures MarkersFrom(text, from) == MarkersFrom(text, to)
    decreases |text| - from
  {
    if from < to {
      MarkersSkip(text, from + 1, to);
    }
  }

  /** strstr stands on the next marker, and stepping over its 15 characters misses none. */
  lemma NextMarker(text: string, from: nat)
    requires from <= |text|
    ensures Find(text[from..], MARKER).None? ==> MarkersFrom(text, from) == []
    ensures Find(text[from..], MARKER).Some? ==>
              var at := from + Find(text[from..], MARKER).value;
              && at + |MARKER| <= |text|
              && MarkersFrom(text, from) == [at] + MarkersFrom(text, at + |MARKER|)
  {
    hide Occurs, Find;
    var found := Find(text[from..], MARKER);
    assert text == text[..from] + text[from..];
    forall k: nat ensures Occurs(MARKER, text, from + k) == Occurs(MARKER, text[from..], k) {
      OccursLater(MARKER, text[..from], text[from..], k);
    }
    if found.None? {
      forall p: nat | from <= p < |text| ensures !Occurs(MARKER, text, p) {
        assert !Occurs(MARKER, text[from..], p - from);
      }
      MarkersSkip(text, from, |text|);
    } else {
      var at := from + found.value;
      assert Occurs(MARKER, text, at);
      OccursChar(MARKER, text, at, |MARKER| - 1);
      forall p: nat | from <= p < at ensures !Occurs(MARKER, text, p) {
        assert !Occurs(MARKER, text[from..], p - from);
      }
      MarkersSkip(text, from, at);
      forall p: nat | at + 1 <= p < at + |MARKER| ensures !Occurs(MARKER, text, p) {
        NoOverlap(text, at, p);
      }
      MarkersSkip(text, at + 1, at + |MARKER|);
    }
  }

  function Min(a: int, b: int): (m: int)
    ensures m <= a && m <= b && (m == a || m == b)
  {
    if a < b then a else b
  }

  /** The first n slots are filled from the first n markers, and the others are as they were. */
  ghost predicate Scanned(text: string, was: seq<Cell>, now: seq<Cell>, n: nat)
  {
    && n <= |Markers(text)| && n <= |was| == |now|
    && (forall i :: 0 <= i < n ==> Filled(text[Markers(text)[i]..], was[i], now[i]))
    && (forall i :: n <= i < |was| ==> now[i] == was[i])
  }

  /** telephony_parse_registry_dumpsys. */
  method ParseRegistryDumpsys(text: string, metrics: array<Cell>, maxCells: int, previousCount: int)
    returns (status: int, outCount: int)
    requires maxCells <= metrics.Length
    modifies metrics
    ensures maxCells <= 0 ==> status == -1 && outCount == previousCount && metrics[..] == old(metrics[..])
    ensures maxCells > 0 ==> outCount == Min(|Markers(text)|, maxCells) && status == (if outCount > 0 then 0 else -1)
    ensures maxCells > 0 ==> Scanned(text, old(metrics[..]), metrics[..], outCount)
  {
    hide Filled, Occurs, Find, MarkersFrom;
    if maxCells <= 0 {
      return -1, previousCount;
    }
    var count := 0;
    var pos := 0;
    while true
      invariant 0 <= count <= maxCells && pos <= |text|
      invariant Scanned(text, old(metrics[..]), metrics[..], count)
      invariant Markers(text)[count..] == MarkersFrom(text, pos)
      decreases |text| - pos
    {
      NextMarker(text, pos);
      var found := Find(text[pos..], MARKER);
      if found.None? || count == maxCells {
        break;
      }
      pos := pos + found.value;
      assert Markers(text)[count] == Markers(text)[count..][0] == pos;
      FillCell(text, pos, metrics, count);
      assert Markers(text)[count + 1..] == Markers(text)[count..][1..];
      count := count + 1;
      pos := pos + 15;
    }
    outCount := count;
    status := if count > 0 then 0 else -1;
  }

  /** The body of the scan loop. */
  method FillCell(text: string, pos: nat, metrics: array<Cell>, count: nat)
    requires pos <= |text| && count < metrics.Length
    modifies metrics
    ensures Filled(text[pos..], old(metrics[count]), metrics[count])
    ensures forall i :: 0 <= i < metrics.Length && i != count ==> metrics[i] == old(metrics[i])
  {
    hide Read;
    var here := text[pos..];
    var cell := metrics[count].(radio := RADIO_TECH_LTE, status := CELL_CONN_PRIMARY);
    var mcc := ReadAttribute(here, Mcc, cell.mcc);
    var mnc := ReadAttribute(here, Mnc, cell.mnc);
    var ci := ReadAttribute(here, Ci, cell.cidOrCi);
    var pci := ReadAttribute(here, Pci, cell.pciOrPsc);
    var tac := ReadAttribute(here, Tac, cell.lacOrTac);
    var earfcn := ReadAttribute(here, Earfcn, cell.earfcn);
    cell := cell.(mcc := mcc, mnc := mnc, cidOrCi := ci, pciOrPsc := pci, lacOrTac := tac, earfcn := earfcn);
    metrics[count] := cell.(dbm := -95, rsrp := -105, rsrq := -12, rssnr := 15);
  }

  // ---- The documented format ----

  datatype Field = Field(key: Key, value: i32)

  /** One printed cell: arbitrary text leading up to it, then its identity attributes. */
  datatype Printed = Printed(lead: string, fields: seq<Field>)

  function FieldText(field: Field): string
  {
    KeyText(field.key) + Decimal(field.value)
  }

  /** The attributes, separated by spaces, and the closing brace. */
  function FieldsText(fields: seq<Field>): string
  {
    if fields == [] then
      "}"
    else
      FieldText(fields[0]) + (if |fields| == 1 then "" else " ") + FieldsText(fields[1..])
  }

  /** What stands between a cell's marker and the text behind the cell. */
  function Inner(fields: seq<Field>): string
  {
    ":{" + FieldsText(fields)
  }

  function Marked(inner: string, rest: string): string
  {
    MARKER + (inner + rest)
  }

  /** From the marker of the first cell to the end. */
  function FromMarker(cells: seq<Printed>, tail: string): string
    requires cells != []
    decreases cells, 0
  {
    Marked(Inner(cells[0].fields), Text(cells[1..], tail))
  }

  function Text(cells: seq<Printed>, tail: string): string
    decreases cells, 1
  {
    if cells == [] then tail else cells[0].lead + FromMarker(cells, tail)
  }

  /** The text around the cells mentions neither the marker nor a key. */
  ghost predicate Plain(text: string)
  {
    && (forall k: nat :: !Occurs(MARKER, text, k))
    && (forall k: nat, key :: !Occurs(KeyText(key), text, k))
  }

  ghost predicate WellPrinted(cells: seq<Printed>, tail: string)
  {
    Plain(tail) && forall cell <- cells :: Plain(cell.lead)
  }

  /** The first value listed for a key. */
  function Lookup(fields: seq<Field>, key: Key): Option<i32>
  {
    if fields == [] then None else if fields[0].key == key then Some(fields[0].value) else Lookup(fields[1..], key)
  }

  /** The first value listed for a key in these cells, in order. */
  function FirstOf(cells: seq<Printed>, key: Key): Option<i32>
  {
    if cells == [] then
      None
    else
      match Lookup(cells[0].fields, key)
      case Some(v) => Some(v)
      case None => FirstOf(cells[1..], key)
  }

  // ---- Printing and parsing are inverse ----

  predicate Lacks(text: string, c: char)
  {
    forall k :: 0 <= k < |text| ==> text[k] != c
  }

  lemma ReadSkips(first: string, rest: string, key: Key)
    requires NoneBegins(KeyText(key), first, rest)
    ensures Read(first + rest, key) == Read(rest, key)
  {
    hide Occurs, ScanInt, Find;
    FindSkips(KeyText(key), first, rest);
    var at := Find(rest, KeyText(key));
    if at.Some? {
      var skip := at.value + |KeyText(key)|;
      OccursChar(KeyText(key), rest, at.value, |KeyText(key)| - 1);
      assert (first + rest)[|first| + skip..] == rest[skip..];
    }
  }

  /** Every key begins with the only 'm' it has. */
  lemma NoKeyBegins(first: string, rest: string, key: Key)
    requires Lacks(first, 'm')
    ensures NoneBegins(KeyText(key), first, rest)
  {
    hide Occurs;
    forall k: nat | k < |first| ensures !Occurs(KeyText(key), first + rest, k) {
      if Occurs(KeyText(key), first + rest, k) {
        OccursChar(KeyText(key), first + rest, k, 0);
      }
    }
  }

  lemma {:induction false} DigitsLack(n: nat, c: char)
    requires !IsDigit(c)
    ensures Lacks(Digits(n), c)
  {
    if n >= 10 {
      DigitsLack(n / 10, c);
    }
  }

  lemma DecimalLacks(v: i32, c: char)
    requires !IsDigit(c) && c != '-'
    ensures Lacks(Decimal(v), c)
  {
    DigitsLack(if v < 0 then 0 - v else v, c);
  }

  lemma ReadHit(key: Key, v: i32, rest: string)
    requires rest == "" || !IsDigit(rest[0])
    ensures Read(FieldText(Field(key, v)) + rest, key) == Some(v)
  {
    hide ScanInt, Decimal;
    var text := FieldText(Field(key, v)) + rest;
    assert text == KeyText(key) + (Decimal(v) + rest);
    assert Occurs(KeyText(key), text, 0);
    assert text[|KeyText(key)|..] == Decimal(v) + rest;
    ScanDecimal(v, rest);
  }

  /** One key's text never begins inside another key's field. */
  lemma ReadMiss(field: Field, rest: string, key: Key)
    requires field.key != key
    ensures Read(FieldText(field) + rest, key) == Read(rest, key)
  {
    hide Occurs, Read, Decimal;
    var text := FieldText(field) + rest;
    var own, other := KeyText(field.key), KeyText(key);
    DecimalLacks(field.value, 'm');
    assert text[1] == own[1] && text[2] == own[2];
    assert own[1] != other[1] || own[2] != other[2];
    assert forall k :: 0 < k < |FieldText(field)| ==> text[k] != other[0];
    hide FieldText;
    forall k: nat | k < |FieldText(field)| ensures !Occurs(other, text, k) {
      if Occurs(other, text, k) {
        OccursChar(other, text, k, 0);
        OccursChar(other, text, k, 1);
        OccursChar(other, text, k, 2);
      }
    }
    ReadSkips(FieldText(field), rest, key);
  }

  lemma {:induction false} FieldsRead(fields: seq<Field>, rest: string, key: Key)
    ensures Read(FieldsText(fields) + rest, key)
         == (match Lookup(fields, key) case Some(v) => Some(v) case None => Read(rest, key))
  {
    hide Read, FieldText;
    if fields == [] {
      NoKeyBegins("}", rest, key);
      ReadSkips("}", rest, key);
    } else {
      var field := fields[0];
      var separator := if |fields| == 1 then "" else " ";
      var later := FieldsText(fields[1..]) + rest;
      assert FieldsText(fields) + rest == FieldText(field) + (separator + later);
      if field.key == key {
        ReadHit(key, field.value, separator + later);
      } else {
        ReadMiss(field, separator + later, key);
        NoKeyBegins(separator, later, key);
        ReadSkips(separator, later, key);
        FieldsRead(fields[1..], rest, key);
      }
    }
  }

  /** A key cannot straddle the end of plain text and the marker behind it. */
  lemma LeadHasNoKey(lead: string, rest: string, key: Key)
    requires Plain(lead)
    requires rest == "" || MARKER <= rest
    ensures NoneBegins(KeyText(key), lead, rest)
  {
    hide Occurs;
    var pattern := KeyText(key);
    forall k: nat | k < |lead| ensures !Occurs(pattern, lead + rest, k) {
      if Occurs(pattern, lead + rest, k) {
        OccursChar(pattern, lead + rest, k, |pattern| - 1);
        if k + |pattern| <= |lead| {
          OccursWithin(pattern, lead, rest, k);
        } else {
          OccursChar(pattern, lead + rest, k, |lead| - k);
        }
      }
    }
  }

  lemma OccursWithin(pattern: string, first: string, rest: string, k: nat)
    requires k + |pattern| <= |first|
    ensures Occurs(pattern, first + rest, k) == Occurs(pattern, first, k)
  {
    assert (first + rest)[k..] == first[k..] + rest;
  }

  /** What the parser reads from a cell's marker on is the first value listed from there on. */
  lemma {:induction false} CellsRead(cells: seq<Printed>, tail: string, key: Key)
    requires cells != [] && WellPrinted(cells, tail)
    ensures Read(FromMarker(cells, tail), key) == FirstOf(cells, key)
    decreases |cells|
  {
    hide Read, Plain, Lookup, FieldsText;
    var fields, rest := FieldsText(cells[0].fields), Text(cells[1..], tail);
    assert FromMarker(cells, tail) == (MARKER + ":{") + (fields + rest);
    NoKeyBegins(MARKER + ":{", fields + rest, key);
    ReadSkips(MARKER + ":{", fields + rest, key);
    FieldsRead(cells[0].fields, rest, key);
    if |cells| == 1 {
      TailRead(tail, key);
    } else {
      var next := FromMarker(cells[1..], tail);
      assert MARKER <= next;
      LeadHasNoKey(cells[1].lead, next, key);
      ReadSkips(cells[1].lead, next, key);
      CellsRead(cells[1..], tail, key);
    }
  }

  lemma TailRead(tail: string, key: Key)
    requires Plain(tail)
    ensures Read(tail, key) == None
  {
    hide Occurs, Find;
    assert Find(tail, KeyText(key)).None?;
  }

  /** Every 'C' is followed by something other than the marker's 'e'. */
  predicate NoMarkerBegins(text: string)
  {
    forall k :: 0 <= k < |text| && text[k] == 'C' ==> k + 1 < |text| && text[k + 1] != 'e'
  }

  lemma {:induction false} FieldsHoldNoMarker(fields: seq<Field>)
    ensures NoMarkerBegins(FieldsText(fields))
  {
    if fields != [] {
      DecimalLacks(fields[0].value, 'C');
      hide Decimal;
      var own := FieldText(fields[0]);
      assert NoMarkerBegins(own);
      FieldsHoldNoMarker(fields[1..]);
    }
  }

  /** The markers of a printed list are its cells, one each, in order. */
  lemma {:induction false} MarkersOfText(text: string, base: nat, cells: seq<Printed>, tail: string)
    requires base <= |text| && text[base..] == Text(cells, tail)
    requires WellPrinted(cells, tail)
    ensures |MarkersFrom(text, base)| == |cells|
    ensures forall i :: 0 <= i < |cells| ==> text[MarkersFrom(text, base)[i]..] == FromMarker(cells[i..], tail)
    decreases |cells|
  {
    assert MarkersFrom(text, |text|) == [];
    hide Occurs, Plain, MarkersFrom, Text, FromMarker, Inner, Marked, NoMarkerBegins;
    if cells == [] {
      assert Text(cells, tail) == tail;
      LeadHasNoMarker(text, base, tail, "");
      MarkersSkip(text, base, |text|);
    } else {
      var inner := Inner(cells[0].fields);
      CellParts(cells, tail);
      InnerHasNoMarker(cells[0].fields);
      NextCell(text, base, cells[0].lead, inner, Text(cells[1..], tail));
      var next := base + |cells[0].lead| + |MARKER| + |inner|;
      MarkersOfText(text, next, cells[1..], tail);
      AllBegin(text, MarkersFrom(text, base), MarkersFrom(text, next), cells, tail);
    }
  }

  lemma AllBegin(text: string, all: seq<nat>, later: seq<nat>, cells: seq<Printed>, tail: string)
    requires cells != [] && |later| == |cells| - 1 && |all| == |cells|
    requires forall i :: 0 <= i < |all| ==> all[i] <= |text|
    requires all[1..] == later && text[all[0]..] == FromMarker(cells, tail)
    requires forall i :: 0 <= i < |later| ==> text[later[i]..] == FromMarker(cells[1..][i..], tail)
    ensures forall i :: 0 <= i < |cells| ==> text[all[i]..] == FromMarker(cells[i..], tail)
  {
    hide FromMarker;
    forall i | 0 <= i < |cells| ensures text[all[i]..] == FromMarker(cells[i..], tail) {
      if i == 0 {
        assert cells[0..] == cells;
      } else {
        assert cells[i..] == cells[1..][i - 1..] && all[i] == later[i - 1];
      }
    }
  }

  lemma CellParts(cells: seq<Printed>, tail: string)
    requires cells != [] && WellPrinted(cells, tail)
    ensures Text(cells, tail) == cells[0].lead + FromMarker(cells, tail)
    ensures FromMarker(cells, tail) == Marked(Inner(cells[0].fields), Text(cells[1..], tail))
    ensures Plain(cells[0].lead)
  {
    hide Plain, Inner, Marked;
  }

  lemma InnerHasNoMarker(fields: seq<Field>)
    ensures NoMarkerBegins(Inner(fields))
  {
    FieldsHoldNoMarker(fields);
    hide FieldsText;
  }

  lemma NextCell(text: string, base: nat, lead: string, inner: string, rest: string)
    requires base <= |text| && text[base..] == lead + Marked(inner, rest)
    requires Plain(lead) && NoMarkerBegins(inner)
    ensures var at := base + |lead|;
            var next := at + |MARKER| + |inner|;
            && next <= |text| && text[at..] == Marked(inner, rest) && text[next..] == rest
            && MarkersFrom(text, base) == [at] + MarkersFrom(text, next)
  {
    var here := Marked(inner, rest);
    BeginsWith(MARKER, inner + rest);
    hide Occurs, Plain, MarkersFrom, NoMarkerBegins;
    SliceSplits(text, base, lead, here);
    LeadHasNoMarker(text, base, lead, here);
    MarkersSkip(text, base, base + |lead|);
    OneMarker(text, base + |lead|, inner, rest);
  }

  lemma BeginsWith(first: string, rest: string)
    ensures first <= first + rest
  {
  }

  lemma LeadHasNoMarker(text: string, base: nat, lead: string, rest: string)
    requires base <= |text| && text[base..] == lead + rest
    requires Plain(lead)
    requires rest == "" || MARKER <= rest
    ensures forall p: nat :: base <= p < base + |lead| ==> !Occurs(MARKER, text, p)
  {
    var at := base + |lead|;
    assert text == text[..base] + (lead + rest);
    assert rest != "" ==> text[at..] == rest && Occurs(MARKER, text, at);
    hide Occurs;
    forall p: nat | base <= p < at ensures !Occurs(MARKER, text, p) {
      OccursLater(MARKER, text[..base], lead + rest, p - base);
      if Occurs(MARKER, text, p) {
        OccursChar(MARKER, text, p, |MARKER| - 1);
        if p + |MARKER| <= at {
          OccursWithin(MARKER, lead, rest, p - base);
        } else {
          NoOverlap(text, p, at);
        }
      }
    }
  }

  lemma SliceSplits(text: string, at: nat, first: string, rest: string)
    requires at <= |text| && text[at..] == first + rest
    ensures at + |first| <= |text| && text[at + |first|..] == rest
    ensures forall p :: at <= p < at + |first| ==> text[p] == first[p - at]
  {
    assert text[at + |first|..] == text[at..][|first|..];
    assert forall p :: at <= p < at + |first| ==> text[p] == text[at..][p - at];
  }

  lemma InnerHoldsNone(text: string, body: nat, inner: string, p: nat)
    requires body <= p < body + |inner| <= |text|
    requires forall i :: body <= i < body + |inner| ==> text[i] == inner[i - body]
    requires NoMarkerBegins(inner)
    ensures !Occurs(MARKER, text, p)
  {
    hide Occurs;
    if Occurs(MARKER, text, p) {
      OccursChar(MARKER, text, p, 0);
      OccursChar(MARKER, text, p, 1);
    }
  }

  lemma OneMarker(text: string, at: nat, inner: string, rest: string)
    requires at <= |text| && text[at..] == Marked(inner, rest)
    requires NoMarkerBegins(inner)
    ensures at + |MARKER| + |inner| <= |text| && text[at + |MARKER| + |inner|..] == rest
    ensures MarkersFrom(text, at) == [at] + MarkersFrom(text, at + |MARKER| + |inner|)
  {
    var body, end := at + |MARKER|, at + |MARKER| + |inner|;
    SliceSplits(text, at, MARKER, inner + rest);
    SliceSplits(text, body, inner, rest);
    StartsHere(text, at, inner + rest);
    hide Occurs, NoMarkerBegins, MarkersFrom;
    forall p: nat | at < p < end ensures !Occurs(MARKER, text, p) {
      if p < body {
        NoOverlap(text, at, p);
      } else {
        InnerHoldsNone(text, body, inner, p);
      }
    }
    MarkersSkipFrom(text, at, end);
  }

  lemma MarkersSkipFrom(text: string, at: nat, end: nat)
    requires at < end <= |text| && Occurs(MARKER, text, at)
    requires forall p: nat :: at < p < end ==> !Occurs(MARKER, text, p)
    ensures MarkersFrom(text, at) == [at] + MarkersFrom(text, end)
  {
    hide Occurs;
    MarkersSkip(text, at + 1, end);
  }

  lemma StartsHere(text: string, at: nat, rest: string)
    requires at <= |text| && text[at..] == MARKER + rest
    ensures Occurs(MARKER, text, at)
  {
  }

  /** A parse of any printed list finds its first cells. Each attribute gets its own cell's value if
      that cell lists it, else the first value a later cell lists, else it keeps what was there.
   */
  lemma ParseInvertsPrint(cells: seq<Printed>, tail: string, was: seq<Cell>, now: seq<Cell>, n: nat, i: nat, key: Key)
    requires WellPrinted(cells, tail)
    requires Scanned(Text(cells, tail), was, now, n) && i < n
    ensures |Markers(Text(cells, tail))| == |cells|
    ensures now[i].Get(key) == (match FirstOf(cells[i..], key) case Some(v) => v case None => was[i].Get(key))
  {
    hide Plain, MarkersFrom, Read, FirstOf, WellPrinted;
    var text := Text(cells, tail);
    assert text[0..] == text;
    MarkersOfText(text, 0, cells, tail);
    assert Filled(text[Markers(text)[i]..], was[i], now[i]);
    WellPrintedTail(cells, tail, i);
    CellsRead(cells[i..], tail, key);
  }

  lemma WellPrintedTail(cells: seq<Printed>, tail: string, i: nat)
    requires WellPrinted(cells, tail) && i <= |cells|
    ensures WellPrinted(cells[i..], tail)
  {
  }

  /** So a cell that lists all six attributes, in whatever order, is recovered exactly, for every 32-bit value. */
  lemma CompleteCellRecovered(cells: seq<Printed>, tail: string, was: seq<Cell>, now: seq<Cell>, n: nat, i: nat)
    requires WellPrinted(cells, tail)
    requires Scanned(Text(cells, tail), was, now, n) && i < n && i < |cells|
    requires forall key :: Lookup(cells[i].fields, key).Some?
    ensures forall key :: now[i].Get(key) == Lookup(cells[i].fields, key).value
  {
    assert i < |was| == |now|;
    hide Scanned, WellPrinted, Lookup;
    forall key ensures now[i].Get(key) == Lookup(cells[i].fields, key).value {
      ParseInvertsPrint(cells, tail, was, now, n, i, key);
      assert FirstOf(cells[i..], key) == Lookup(cells[i].fields, key);
    }
  }
}
