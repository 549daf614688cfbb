/**
 * `updateAddressDisplay`: the outcome of the reverse-geocoding call becomes
 * the address block of the editor, one `Label: value` line per non-empty
 * field, in a fixed order of eight labels, or a fixed placeholder when the
 * call or its parsing failed.
 */
module AddressBlock {
  import opened Wrappers

  /** The fields of a reverse-geocoding `address` object that the block reads; `None` is an absent field. */
  datatype Address = Address(
    road: Option<string>, houseNumber: Option<string>, suburb: Option<string>,
    city: Option<string>, town: Option<string>, village: Option<string>,
    county: Option<string>, state: Option<string>, postcode: Option<string>,
    country: Option<string>)

  /** A parsed response; its `address` member may be missing. */
  datatype Response = Response(address: Option<Address>)

  datatype Line = Line(caption: string, value: string)

  /** What the address element shows: the stored text, a block of lines, or the failure placeholder. */
  datatype View = Stored(text: string) | Lines(lines: seq<Line>) | Unavailable

  const Labels: seq<string> :=
    ["Calle", "Número", "Barrio", "Municipio", "Departamento", "Provincia", "Código Postal", "País"]

  const UnavailableText: string := "Dirección no disponible"

  const NoFields: Address := Address(None, None, None, None, None, None, None, None, None, None)

  /** A field value JavaScript treats as true: present and not the empty string. */
  predicate Truthy(v: Option<string>) {
    v.Some? && v.value != ""
  }

  /** `a || b` on field values. */
  function Or(a: Option<string>, b: Option<string>): Option<string> {
    if Truthy(a) then a else b
  }

  /** The eight candidate values, in the order of `Labels`. */
  function Candidates(a: Address): (vals: seq<Option<string>>)
    ensures |vals| == |Labels|
  {
    [a.road, a.houseNumber, a.suburb, Or(a.city, Or(a.town, a.village)),
     a.county, a.state, a.postcode, a.country]
  }

  /** The line for slot `j`, if its value is truthy. */
  function LineAt(vals: seq<Option<string>>, j: nat): seq<Line>
    requires |vals| == |Labels| && j < |Labels|
  {
    if Truthy(vals[j]) then [Line(Labels[j], vals[j].value)] else []
  }

  /** The lines for slots `i` to the end. */
  function Collect(vals: seq<Option<string>>, i: nat): seq<Line>
    requires |vals| == |Labels| && i <= |Labels|
    decreases |Labels| - i
  {
    if i == |Labels| then [] else LineAt(vals, i) + Collect(vals, i + 1)
  }

  /** Appending slot `i`'s line to the lines before it leaves the lines from `i + 1` on to follow. */
  lemma CollectStep(vals: seq<Option<string>>, i: nat, before: seq<Line>)
    requires |vals| == |Labels| && i < |Labels|
    ensures (before + LineAt(vals, i)) + Collect(vals, i + 1) == before + Collect(vals, i)
  {
    var line, rest := LineAt(vals, i), Collect(vals, i + 1);
    assert Collect(vals, i) == line + rest;
    assert (before + line) + rest == before + (line + rest);
  }

  /** The block for a parsed response: `data.address || {}`, then the lines. */
  function BlockOf(r: Response): seq<Line> {
    Collect(Candidates(r.address.GetOr(NoFields)), 0)
  }

  /** The display after a lookup; `None` is a failed fetch or an unparsable body. */
  function Display(outcome: Option<Response>): View {
    match outcome
    case None => Unavailable
    case Some(r) => Lines(BlockOf(r))
  }

  function LinesText(lines: seq<Line>): string {
    if lines == [] then [] else lines[0].caption + ": " + lines[0].value + LinesText(lines[1..])
  }

  /** `textContent` of the address element: the lines' texts run together with nothing between them. */
  function TextContent(v: View): string {
    match v
    case Stored(t) => t
    case Lines(lines) => LinesText(lines)
    case Unavailable => UnavailableText
  }

  /** The slot of a label in `Labels`, or `|Labels|` for any other string. */
  function Slot(caption: string): (j: nat)
    ensures j <= |Labels|
  {
    if caption == "Calle" then 0 else if caption == "Número" then 1
    else if caption == "Barrio" then 2 else if caption == "Municipio" then 3
    else if caption == "Departamento" then 4 else if caption == "Provincia" then 5
    else if caption == "Código Postal" then 6 else if caption == "País" then 7
    else 8
  }

  /** The labels are distinct: each one's slot is its own index. */
  lemma SlotOfLabel(j: nat)
    requires j < |Labels|
    ensures Slot(Labels[j]) == j
  {
    if j == 0 {} else if j == 1 {} else if j == 2 {} else if j == 3 {}
    else if j == 4 {} else if j == 5 {} else if j == 6 {} else {}
  }

  /** The slots from `i` on whose value is truthy, in order: the ghost index of each line. */
  ghost function Slots(vals: seq<Option<string>>, i: nat): seq<nat>
    requires |vals| == |Labels| && i <= |Labels|
    decreases |Labels| - i
  {
    if i == |Labels| then [] else (if Truthy(vals[i]) then [i] else []) + Slots(vals, i + 1)
  }

  /** The `k`-th line of the block is the label and value of the `k`-th truthy slot. */
  lemma {:induction false} CollectBySlots(vals: seq<Option<string>>, i: nat)
    requires |vals| == |Labels| && i <= |Labels|
    ensures var r, s := Collect(vals, i), Slots(vals, i);
      && |r| == |s|
      && forall k :: 0 <= k < |s| ==>
           s[k] < |Labels| && Truthy(vals[s[k]]) && r[k] == Line(Labels[s[k]], vals[s[k]].value)
    decreases |Labels| - i
  {
    if i < |Labels| {
      CollectBySlots(vals, i + 1);
      var r, s := Collect(vals, i), Slots(vals, i);
      var r', s' := Collect(vals, i + 1), Slots(vals, i + 1);
      if Truthy(vals[i]) {
        assert r == [Line(Labels[i], vals[i].value)] + r' && s == [i] + s';
        forall k | 0 < k < |s|
          ensures s[k] < |Labels| && Truthy(vals[s[k]]) && r[k] == Line(Labels[s[k]], vals[s[k]].value)
        {
          assert r[k] == r'[k - 1] && s[k] == s'[k - 1];
        }
      } else {
        assert r == r' && s == s';
      }
    }
  }

  /** The truthy slots from `i` on: strictly increasing, each truthy, and every truthy slot among them. */
  lemma {:induction false} SlotsSpec(vals: seq<Option<string>>, i: nat)
    requires |vals| == |Labels| && i <= |Labels|
    ensures var s := Slots(vals, i);
      && |s| <= |Labels| - i
      && (forall k :: 0 <= k < |s| ==> i <= s[k] < |Labels| && Truthy(vals[s[k]]))
      && (forall k1, k2 :: 0 <= k1 < k2 < |s| ==> s[k1] < s[k2])
      && (forall j :: i <= j < |Labels| ==> (Truthy(vals[j]) <==> j in s))
    decreases |Labels| - i
  {
    if i < |Labels| {
      SlotsSpec(vals, i + 1);
      var s, s' := Slots(vals, i), Slots(vals, i + 1);
      if Truthy(vals[i]) {
        assert s == [i] + s';
        assert forall k :: 0 < k < |s| ==> s[k] == s'[k - 1];
      } else {
        assert s == s';
      }
    }
  }

  /**
   * The block of a parsed response: at most eight lines; the `k`-th line is
   * the label and non-empty value of the `k`-th slot in a strictly increasing
   * run of slots, and a slot is in that run iff its value is present and
   * non-empty.
   */
  lemma BlockSpec(r: Response)
    ensures var lines, vals := BlockOf(r), Candidates(r.address.GetOr(NoFields));
      var s := Slots(vals, 0);
      && |lines| == |s| <= |Labels|
      && (forall k :: 0 <= k < |s| ==>
            s[k] < |Labels| && Truthy(vals[s[k]]) && lines[k] == Line(Labels[s[k]], vals[s[k]].value))
      && (forall k1, k2 :: 0 <= k1 < k2 < |s| ==> s[k1] < s[k2])
      && (forall j :: 0 <= j < |Labels| ==> (Truthy(vals[j]) <==> j in s))
  {
    var vals := Candidates(r.address.GetOr(NoFields));
    CollectBySlots(vals, 0);
    SlotsSpec(vals, 0);
  }

  /** A label appears in the block iff its value is present and non-empty. */
  lemma LabelPresentIff(r: Response, j: nat)
    requires j < |Labels|
    ensures var lines := BlockOf(r);
      Truthy(Candidates(r.address.GetOr(NoFields))[j]) <==> exists k :: 0 <= k < |lines| && lines[k].caption == Labels[j]
  {
    var lines, vals := BlockOf(r), Candidates(r.address.GetOr(NoFields));
    var s := Slots(vals, 0);
    BlockSpec(r);
    if Truthy(vals[j]) {
      var k :| 0 <= k < |s| && s[k] == j;
      assert lines[k].caption == Labels[j];
    }
    if k :| 0 <= k < |lines| && lines[k].caption == Labels[j] {
      SlotOfLabel(j);
      SlotOfLabel(s[k]);
      assert s[k] == j;
    }
  }

  /** `Municipio` is in the block iff the city, the town or the village is set. */
  lemma MunicipioPresent(a: Address)
    ensures var lines := BlockOf(Response(Some(a)));
      (exists k :: 0 <= k < |lines| && lines[k].caption == "Municipio")
        <==> (Truthy(a.city) || Truthy(a.town) || Truthy(a.village))
  {
    LabelPresentIff(Response(Some(a)), 3);
    assert Labels[3] == "Municipio";
  }

  /** `Municipio` shows the city, else the town, else the village. */
  lemma MunicipioValue(a: Address, k: nat)
    requires var lines := BlockOf(Response(Some(a))); k < |lines| && lines[k].caption == "Municipio"
    ensures Some(BlockOf(Response(Some(a)))[k].value) ==
              if Truthy(a.city) then a.city else if Truthy(a.town) then a.town else a.village
  {
    var vals := Candidates(a);
    var s := Slots(vals, 0);
    BlockSpec(Response(Some(a)));
    SlotOfLabel(s[k]);
    assert Slot("Municipio") == 3;
    assert s[k] == 3;
  }

  /** A response without an `address` member gives an empty block. */
  lemma MissingAddressIsEmpty(r: Response)
    requires r.address.None?
    ensures BlockOf(r) == []
  {
    var vals := Candidates(NoFields);
    assert forall j :: 0 <= j < |vals| ==> vals[j] == None;
    BlockSpec(r);
  }

  /** The first two characters of every label, none of which is `Di`. */
  lemma LabelStart(j: nat)
    requires j < |Labels|
    ensures |Labels[j]| >= 2 && (Labels[j][0] != 'D' || Labels[j][1] != 'i')
  {
    if j == 0 {} else if j == 1 {} else if j == 2 {} else if j == 3 {}
    else if j == 4 {} else if j == 5 {} else if j == 6 {} else {}
  }

  /** Lines whose first label does not start as the placeholder does never read as the placeholder. */
  lemma LinesTextNotPlaceholder(lines: seq<Line>)
    requires lines != [] && |lines[0].caption| >= 2
    requires lines[0].caption[0] != 'D' || lines[0].caption[1] != 'i'
    ensures LinesText(lines) != UnavailableText
  {
    var t := LinesText(lines);
    assert t == lines[0].caption + (": " + lines[0].value + LinesText(lines[1..]));
    assert t[0] == lines[0].caption[0] && t[1] == lines[0].caption[1];
    assert UnavailableText[0] == 'D' && UnavailableText[1] == 'i';
  }

  /** The placeholder text is shown exactly when the lookup failed. */
  lemma PlaceholderIffFailure(outcome: Option<Response>)
    ensures TextContent(Display(outcome)) == UnavailableText <==> outcome.None?
  {
    if outcome.Some? {
      var r := outcome.value;
      var lines := BlockOf(r);
      if lines != [] {
        var vals := Candidates(r.address.GetOr(NoFields));
        CollectBySlots(vals, 0);
        var j := Slots(vals, 0)[0];
        LabelStart(j);
        LinesTextNotPlaceholder(lines);
      }
    }
  }
}
