/**
  The legend control's `onAdd` (static/js/logic.js): a `div` is created and,
  for each breakpoint of `grades`, one HTML fragment (a colour swatch and a
  range label) is appended to its `innerHTML`.
 */
module Legend {
  import opened Colors
  import opened Text

  /** The breakpoints `onAdd` assigns to `grades` before its loop. */
  const Grades: seq<int> := [0, 1, 2, 3, 4, 5]

  /** JavaScript truthiness of `grades[j]`: past the end it is `undefined`, and the
      number 0 is falsy as well. */
  predicate Truthy(grades: seq<int>, j: nat) {
    j < |grades| && grades[j] != 0
  }

  /** The swatch colour of entry `i`: `markerColor(grades[i] + 1)`. */
  function SwatchColor(grades: seq<int>, i: nat): Color
    requires i < |grades|
  {
    MarkerColor((grades[i] + 1) as real)
  }

  function Swatch(grades: seq<int>, i: nat): string
    requires i < |grades|
  {
    "<i style=\"background:" + Name(SwatchColor(grades, i)) + "\"></i> "
  }

  /** `grades[i]` followed by "&ndash;next<br>" when the next grade is truthy, else "+". */
  function Label(grades: seq<int>, i: nat): string
    requires i < |grades|
  {
    IntToString(grades[i]) +
    (if Truthy(grades, i + 1) then "&ndash;" + IntToString(grades[i + 1]) + "<br>" else "+")
  }

  /** What iteration `i` of the loop appends. */
  function Fragment(grades: seq<int>, i: nat): string
    requires i < |grades|
  {
    Swatch(grades, i) + Label(grades, i)
  }

  /** One fragment per breakpoint, in breakpoint order. */
  function Fragments(grades: seq<int>): seq<string> {
    seq(|grades|, i requires 0 <= i < |grades| => Fragment(grades, i))
  }

  /** The HTML the loop appends in all: the fragments concatenated in order. */
  function LegendHtml(grades: seq<int>): string {
    Concat(Fragments(grades))
  }

  /** The legend's container element; only the class name and the markup are modelled. */
  class Div {
    var className: string
    var innerHTML: string

    /** `L.DomUtil.create("div", className)`: a fresh, empty element. */
    constructor (className: string)
      ensures this.className == className && innerHTML == ""
    {
      this.className := className;
      innerHTML := "";
    }
  }

  /** The `for` loop of `onAdd`: appends every fragment to `div.innerHTML`, in order,
      and nothing else. */
  method AppendEntries(div: Div, grades: seq<int>)
    modifies div
    ensures div.className == old(div.className)
    ensures div.innerHTML == old(div.innerHTML) + LegendHtml(grades)
  {
    ghost var parts := Fragments(grades);
    ghost var before := div.innerHTML;
    for i := 0 to |grades|
      invariant div.className == old(div.className)
      invariant div.innerHTML == before + Concat(parts[..i])
    {
      var fragment := Fragment(grades, i);
      AppendStep(before, parts, i);
      div.innerHTML := div.innerHTML + fragment;
    }
    assert parts[..|grades|] == parts;
  }

  /** One more iteration extends the accumulated prefix by the next part. */
  lemma AppendStep(before: string, parts: seq<string>, i: nat)
    requires i < |parts|
    ensures before + Concat(parts[..i]) + parts[i] == before + Concat(parts[..i + 1])
  {
    assert parts[..i + 1] == parts[..i] + [parts[i]];
    ConcatAppend(parts[..i], parts[i]);
  }

  /** `legend.onAdd`: a fresh "info legend" element holding the legend for `Grades`. */
  method OnAdd() returns (div: Div)
    ensures fresh(div)
    ensures div.className == "info legend"
    ensures div.innerHTML == LegendHtml(Grades)
  {
    div := new Div("info legend");
    AppendEntries(div, Grades);
  }

  /** For the shown breakpoints the truthiness test is exactly "a next breakpoint exists". */
  lemma TruthyIsNextInRange(i: nat)
    requires i < |Grades|
    ensures Truthy(Grades, i + 1) <==> i + 1 < |Grades|
  {
  }

  /** The swatch colours of the shown legend, in breakpoint order. */
  const ShownColours: seq<Color> := [Purple, Blue, Green, Yellow, Orange, Red]

  /** The swatches run from Purple to Red, one severity step per entry. */
  lemma SwatchColours(i: nat)
    requires i < |Grades|
    ensures SwatchColor(Grades, i) == ShownColours[i]
    ensures Rank(SwatchColor(Grades, i)) == i + 1
  {
  }

  /** All magnitudes in (g, g + 1] for an integer g share the colour of g + 1. */
  lemma UnitRangeOneColour(g: int, m: real)
    requires g as real < m <= (g + 1) as real
    ensures MarkerColor(m) == MarkerColor((g + 1) as real)
  {
  }

  /** Each swatch is the marker colour of every magnitude in the range it labels:
      (grades[i], grades[i + 1]] for the inner entries, above the last breakpoint
      for the final "+" entry. */
  lemma SwatchIsBucketOfLabel(i: nat, m: real)
    requires i < |Grades|
    requires Grades[i] as real < m
    requires i + 1 < |Grades| ==> m <= Grades[i + 1] as real
    ensures MarkerColor(m) == SwatchColor(Grades, i)
  {
  }

  /** The label of shown entry `i`: "i&ndash;i+1<br>", and "5+" for the last. */
  function ShownLabel(i: nat): string
    requires i < |Grades|
  {
    if i + 1 < |Grades| then [DigitChar(i)] + "&ndash;" + [DigitChar(i + 1)] + "<br>" else "5+"
  }

  /** The labels: "g&ndash;g'<br>" for the first five breakpoints, and "5+", with no
      line break, for the last. */
  lemma LabelsOfGrades(i: nat)
    requires i < |Grades|
    ensures Label(Grades, i) == ShownLabel(i)
  {
    assert Grades[i] == i;
    assert IntToString(Grades[i]) == [DigitChar(i)];
    if i + 1 < |Grades| {
      assert Truthy(Grades, i + 1) && Grades[i + 1] == i + 1;
      assert IntToString(Grades[i + 1]) == [DigitChar(i + 1)];
    } else {
      assert !Truthy(Grades, i + 1) && DigitChar(i) == '5';
    }
  }

  /** The legend for `Grades`: six entries in breakpoint order, entry i a swatch of
      the i-th shown colour followed by the i-th shown label. */
  lemma LegendOfGrades()
    ensures |Fragments(Grades)| == |ShownColours| == 6
    ensures forall i :: 0 <= i < |Grades| ==>
      Fragments(Grades)[i] == "<i style=\"background:" + Name(ShownColours[i]) + "\"></i> " + ShownLabel(i)
  {
    forall i | 0 <= i < |Grades|
      ensures Fragments(Grades)[i] == "<i style=\"background:" + Name(ShownColours[i]) + "\"></i> " + ShownLabel(i)
    {
      LabelsOfGrades(i);
      SwatchColours(i);
    }
  }

  /** The last entry in full: a red swatch labelled "5+", with no line break. */
  lemma LastEntry()
    ensures Fragments(Grades)[|Grades| - 1] == "<i style=\"background:Red\"></i> 5+"
  {
  }

  /** The truthiness test is not a bounds test: a 0 after the first breakpoint
      would close the preceding label with "+" instead of a range. */
  lemma ZeroNextGradeEndsRange()
    ensures Label([-1, 0, 1], 0) == "-1+"
  {
  }
}
