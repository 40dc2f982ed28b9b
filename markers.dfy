/**
  The per-feature derivations inside `createFeatures` (static/js/logic.js):
  the circle-marker options object built by `pointToLayer` and the popup
  text bound by `onEachFeature`.
 */
module Markers {
  import opened Colors
  import opened Text

  /** One earthquake feature. The magnitude is `mag`; `magText` and `timeText`
      are the host's renderings of the magnitude and of `new Date(time)`. */
  datatype Feature = Feature(place: string, mag: real, timeText: string, magText: string)

  /** A JavaScript property value as used in the options object. */
  datatype Value = Num(n: real) | Str(s: string)

  /** The property names of the circle-marker options literal. */
  datatype Prop = Radius | FillColor | StrokeColor | Weight | Opacity | FillOpacity

  /** The property name as written in the source. */
  function PropName(p: Prop): string {
    match p
    case Radius => "radius"
    case FillColor => "fillColor"
    case StrokeColor => "color"
    case Weight => "weight"
    case Opacity => "opacity"
    case FillOpacity => "fillOpacity"
  }

  /** Distinct properties have distinct names, so comparing `Prop`s, as `ObjectOf`
      does, is the same as comparing the key strings, as JavaScript does. */
  lemma PropNameInjective(p: Prop, q: Prop)
    requires PropName(p) == PropName(q)
    ensures p == q
  {
  }

  /** The keys of an object literal. */
  function Keys<K, V>(entries: seq<(K, V)>): set<K> {
    set i | 0 <= i < |entries| :: entries[i].0
  }

  /** Entry `i` is the last one in the literal with its key. */
  predicate LastWithKey<K(==), V>(entries: seq<(K, V)>, i: nat)
    requires i < |entries|
  {
    forall j :: i < j < |entries| ==> entries[j].0 != entries[i].0
  }

  /** Evaluation of an object literal: properties are defined in order, so a key
      written twice takes the value of its later occurrence. */
  function ObjectOf<K(==), V>(entries: seq<(K, V)>): map<K, V> {
    if entries == [] then map[]
    else ObjectOf(entries[..|entries| - 1])[entries[|entries| - 1].0 := entries[|entries| - 1].1]
  }

  /** The object has exactly the keys written in the literal. */
  lemma {:induction false} ObjectOfKeys<K, V>(entries: seq<(K, V)>)
    ensures ObjectOf(entries).Keys == Keys(entries)
  {
    if entries != [] {
      var init := entries[..|entries| - 1];
      ObjectOfKeys(init);
      forall k | k in Keys(entries) ensures k in Keys(init) + {entries[|entries| - 1].0} {
        var i :| 0 <= i < |entries| && entries[i].0 == k;
        if i < |init| { assert init[i] == entries[i]; }
      }
      forall k | k in Keys(init) ensures k in Keys(entries) {
        var i :| 0 <= i < |init| && init[i].0 == k;
        assert entries[i] == init[i];
      }
    }
  }

  /** The later occurrence of a key wins. */
  lemma {:induction false} ObjectOfLastWins<K, V>(entries: seq<(K, V)>, i: nat)
    requires i < |entries| && LastWithKey(entries, i)
    ensures entries[i].0 in ObjectOf(entries) && ObjectOf(entries)[entries[i].0] == entries[i].1
  {
    var init := entries[..|entries| - 1];
    if i < |init| {
      assert init[i] == entries[i];
      assert LastWithKey(init, i) by {
        forall j | i < j < |init| ensures init[j].0 != init[i].0 {
          assert init[j] == entries[j];
        }
      }
      ObjectOfLastWins(init, i);
    }
  }

  /** The options literal passed to `L.circleMarker`, duplicate `fillColor` included. */
  function StyleLiteral(f: Feature): seq<(Prop, Value)> {
    [ (Radius, Num(f.mag * 5.0)),
      (FillColor, Str("White")),
      (StrokeColor, Str("Black")),
      (Weight, Num(1.0)),
      (Opacity, Num(1.0)),
      (FillOpacity, Num(f.mag / 5.0)),
      (FillColor, Str(Name(MarkerColor(f.mag)))) ]
  }

  /** The options object `pointToLayer` builds for a feature. */
  function MarkerStyle(f: Feature): map<Prop, Value> {
    ObjectOf(StyleLiteral(f))
  }

  /** The six options with their effective values. */
  predicate HasStyleOf(obj: map<Prop, Value>, f: Feature) {
    obj.Keys == {Radius, FillColor, StrokeColor, Weight, Opacity, FillOpacity} &&
    obj[Radius] == Num(f.mag * 5.0) &&
    obj[FillOpacity] == Num(f.mag / 5.0) &&
    obj[FillColor] == Str(Name(MarkerColor(f.mag))) &&
    obj[StrokeColor] == Str("Black") &&
    obj[Weight] == Num(1.0) &&
    obj[Opacity] == Num(1.0)
  }

  /** The effective marker options: six properties, radius five times the magnitude,
      fill opacity a fifth of it, fill colour the bucket colour of the magnitude
      (the literal "White" is overridden), and a constant black stroke. */
  lemma MarkerStyleFields(f: Feature)
    ensures HasStyleOf(MarkerStyle(f), f)
  {
    var es := StyleLiteral(f);
    ObjectOfKeys(es);
    ObjectOfLastWins(es, 0);
    ObjectOfLastWins(es, 2);
    ObjectOfLastWins(es, 3);
    ObjectOfLastWins(es, 4);
    ObjectOfLastWins(es, 5);
    ObjectOfLastWins(es, 6);
    assert Keys(es) == {Radius, FillColor, StrokeColor, Weight, Opacity, FillOpacity} by {
      assert es[0].0 == Radius && es[1].0 == FillColor && es[2].0 == StrokeColor;
      assert es[3].0 == Weight && es[4].0 == Opacity && es[5].0 == FillOpacity;
    }
  }

  /** The first `fillColor` entry is dead: dropping it leaves the object unchanged. */
  lemma WhiteFillColorIsDead(f: Feature)
    ensures ObjectOf(StyleLiteral(f)[..1] + StyleLiteral(f)[2..]) == MarkerStyle(f)
  {
    var es := StyleLiteral(f);
    var shorter := es[..1] + es[2..];
    assert shorter == [es[0], es[2], es[3], es[4], es[5], es[6]];
    MarkerStyleFields(f);
    ObjectOfKeys(shorter);
    ObjectOfLastWins(shorter, 0);
    ObjectOfLastWins(shorter, 1);
    ObjectOfLastWins(shorter, 2);
    ObjectOfLastWins(shorter, 3);
    ObjectOfLastWins(shorter, 4);
    ObjectOfLastWins(shorter, 5);
    assert Keys(shorter) == MarkerStyle(f).Keys by {
      assert shorter[0].0 == Radius && shorter[1].0 == StrokeColor && shorter[2].0 == Weight;
      assert shorter[3].0 == Opacity && shorter[4].0 == FillOpacity && shorter[5].0 == FillColor;
    }
  }

  /** The popup HTML `onEachFeature` binds to the marker. */
  function Popup(f: Feature): string {
    "<h3>" + f.place + "</h3><hr><h3>Magnitude: " + f.magText + "</h3><hr><p>" + f.timeText + "</p>"
  }

  /** The popup is non-empty and carries the place, the magnitude text after its
      "Magnitude: " caption, and the time text, each at its fixed position. */
  lemma PopupShape(f: Feature)
    ensures |Popup(f)| == |f.place| + |f.magText| + |f.timeText| + 44
    ensures OccursAt(Popup(f), f.place, 4)
    ensures OccursAt(Popup(f), "Magnitude: " + f.magText, |f.place| + 17)
    ensures OccursAt(Popup(f), f.timeText, |f.place| + |f.magText| + 40)
    ensures Contains(Popup(f), f.place) && Contains(Popup(f), "Magnitude: " + f.magText)
  {
    var p := Popup(f);
    var caption := "Magnitude: " + f.magText;
    assert p[4..4 + |f.place|] == f.place;
    assert p[|f.place| + 17..|f.place| + 17 + |caption|] == caption;
    assert p[|f.place| + |f.magText| + 40..|f.place| + |f.magText| + 40 + |f.timeText|] == f.timeText;
    assert OccursAt(p, f.place, 4);
    assert OccursAt(p, caption, |f.place| + 17);
  }

  /** No '<' in the text, so it cannot be mistaken for the markup around it. */
  predicate TagFree(s: string) {
    forall i :: 0 <= i < |s| ==> s[i] != '<'
  }

  lemma StripPrefix(p: string, x: string, y: string)
    requires p + x == p + y
    ensures x == y
  {
    assert x == (p + x)[|p|..];
    assert y == (p + y)[|p|..];
  }

  lemma StripSuffix(x: string, y: string, q: string)
    requires x + q == y + q
    ensures x == y
  {
    assert x == (x + q)[..|x|];
    assert y == (y + q)[..|y|];
  }

  /** Two splits of one string, each just before its first '<', agree. */
  lemma SplitAtTag(a: string, s: string, b: string, t: string)
    requires TagFree(a) && TagFree(b)
    requires |s| > 0 && s[0] == '<' && |t| > 0 && t[0] == '<'
    requires a + s == b + t
    ensures a == b && s == t
  {
    assert a == (a + s)[..|a|];
    assert b == (b + t)[..|b|];
    assert s == (a + s)[|a|..];
    assert t == (b + t)[|b|..];
  }

  /** The popup determines the place, the magnitude text and the time text,
      provided the place and the magnitude text hold no markup. */
  lemma PopupInjective(f: Feature, g: Feature)
    requires TagFree(f.place) && TagFree(f.magText)
    requires TagFree(g.place) && TagFree(g.magText)
    requires Popup(f) == Popup(g)
    ensures f.place == g.place && f.magText == g.magText && f.timeText == g.timeText
  {
    var mid, tail := "</h3><hr><h3>Magnitude: ", "</h3><hr><p>";
    var endF, endG := f.timeText + "</p>", g.timeText + "</p>";
    var afterMagF, afterMagG := tail + endF, tail + endG;
    var afterPlaceF, afterPlaceG := mid + (f.magText + afterMagF), mid + (g.magText + afterMagG);
    PopupNested(f);
    PopupNested(g);
    StripPrefix("<h3>", f.place + afterPlaceF, g.place + afterPlaceG);
    SplitAtTag(f.place, afterPlaceF, g.place, afterPlaceG);
    StripPrefix(mid, f.magText + afterMagF, g.magText + afterMagG);
    SplitAtTag(f.magText, afterMagF, g.magText, afterMagG);
    StripPrefix(tail, endF, endG);
    StripSuffix(f.timeText, g.timeText, "</p>");
  }

  /** The popup regrouped from the right, one piece after another. */
  lemma PopupNested(f: Feature)
    ensures Popup(f) == "<h3>" + (f.place + ("</h3><hr><h3>Magnitude: " + (f.magText + ("</h3><hr><p>" + (f.timeText + "</p>")))))
  {
  }

  /** A magnitude-4.5 quake 10 km north-east of a town: an orange circle of radius
      22.5 whose popup names the place and the magnitude. */
  lemma ExampleFeature()
    ensures var f := Feature("10km NE of Town", 4.5, "Tue Nov 14 2023", "4.5");
      FillColor in MarkerStyle(f) && MarkerStyle(f)[FillColor] == Str("Orange") &&
      Radius in MarkerStyle(f) && MarkerStyle(f)[Radius] == Num(22.5) &&
      FillOpacity in MarkerStyle(f) && MarkerStyle(f)[FillOpacity] == Num(0.9) &&
      Contains(Popup(f), "10km NE of Town") &&
      Contains(Popup(f), "Magnitude: 4.5")
  {
    var f := Feature("10km NE of Town", 4.5, "Tue Nov 14 2023", "4.5");
    MarkerStyleFields(f);
    PopupShape(f);
    assert Name(MarkerColor(4.5)) == "Orange";
    assert "Magnitude: " + f.magText == "Magnitude: 4.5";
  }
}
