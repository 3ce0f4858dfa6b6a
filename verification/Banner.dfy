/** The device banner: its type, its properties, and its features. */
module Banner {
  import opened Wrappers
  import opened Text
  import Sequences

  datatype DeviceType = Device | Other(name: string)

  datatype Banner = Banner(deviceType: DeviceType, properties: map<string, string>, features: set<string>)

  /** `key=value` items into a map; a later item replaces an earlier one. */
  function Properties(items: seq<string>): Result<map<string, string>> {
    if items == [] then Ok(map[])
    else
      var k := |items| - 1;
      match Properties(items[..k])
      case Err(e) => Err(e)
      case Ok(m) =>
        match SplitOnce(items[k], "=")
        case None => Err("invalid data")
        case Some((a, b)) => Ok(m[a := b])
  }

  function Parse(s: string): Result<Banner> {
    match SplitOnce(s, "::")
    case None => Err("invalid data")
    case Some((kind, rest)) =>
      match Properties(Split(rest, ';'))
      case Err(e) => Err(e)
      case Ok(m) =>
        var features := if "features" in m then m["features"] else "";
        Ok(Banner(if kind == "device" then Device else Other(kind),
                  m - {"features"},
                  FeatureSet(features)))
  }

  function FeatureSet(features: string): set<string> {
    set f | f in Split(features, ',')
  }

  lemma JoinedNext(s: string, order: seq<string>, i: nat)
    requires i < |order|
    ensures s + Joined(order[i..], ',') == (s + order[i] + ",") + Joined(order[i + 1..], ',')
  {
    assert order[i..][0] == order[i] && order[i..][1..] == order[i + 1..];
    Sequences.Assoc(s, order[i] + [','], Joined(order[i + 1..], ','));
    Sequences.Assoc(s, order[i], [',']);
  }

  /** `features_str` for one iteration order of the set: each feature and a comma, and the last comma
      popped. */
  method FeaturesStr(order: seq<string>) returns (s: string)
    ensures s == if order == [] then "" else Joined(order, ',')[..|Joined(order, ',')| - 1]
  {
    s := "";
    var i := 0;
    while i < |order|
      invariant 0 <= i <= |order|
      invariant s + Joined(order[i..], ',') == Joined(order, ',')
    {
      JoinedNext(s, order, i);
      s := s + order[i] + ",";
      i := i + 1;
    }
    assert order[i..] == [];
    assert s + "" == s;
    if s != "" {
      s := s[..|s| - 1];
    }
    if order != [] {
      assert Joined(order, ',') == order[0] + [','] + Joined(order[1..], ',');
    }
  }

  /** A sequence that lists each element of a set once. */
  ghost predicate Orders(order: seq<string>, s: set<string>) {
    |order| == |s| && forall f :: f in order <==> f in s
  }

  /** For every banner that was parsed and every iteration order: splitting the printed features gives
      exactly that order back, so the same set. */
  lemma FeaturesSurvive(text: string, order: seq<string>)
    requires Parse(text).Ok? && Orders(order, Parse(text).value.features)
    ensures order != []
    ensures var j := Joined(order, ',');
            Split(j[..|j| - 1], ',') == order && FeatureSet(j[..|j| - 1]) == Parse(text).value.features
  {
    var pair := SplitOnce(text, "::");
    var m := Properties(Split(pair.value.1, ';')).value;
    var pieces := Split(if "features" in m then m["features"] else "", ',');
    assert Parse(text).value.features == FeatureSet(if "features" in m then m["features"] else "");
    assert pieces[0] in Parse(text).value.features;
    forall p | p in order ensures ',' !in p {
      assert p in pieces;
    }
    SplitJoined(order, ',');
  }

  // ---- What a banner says ------------------------------------------------------------------------

  type Item = (string, string)

  /** A device's properties as it prints them. */
  function Texts(items: seq<Item>): (r: seq<string>)
    ensures |r| == |items|
  {
    if items == [] then []
    else
      var k := |items| - 1;
      Texts(items[..k]) + [items[k].0 + "=" + items[k].1]
  }

  function Printed(kind: string, items: seq<Item>): string
    requires items != []
  {
    var j := Joined(Texts(items), ';');
    kind + "::" + if j == [] then "" else j[..|j| - 1]
  }

  /** A pair that can be printed so that it is found again. */
  predicate Printable(item: Item) { '=' !in item.0 && ';' !in item.0 && ';' !in item.1 }

  /** The pair at `i` is the last one for its key. */
  predicate LastAt(items: seq<Item>, i: nat, key: string) {
    i < |items| && items[i].0 == key && forall j :: i < j < |items| ==> items[j].0 != key
  }

  /** The map holds exactly the keys of the pairs, each with its last value. */
  ghost predicate LastValues(m: map<string, string>, items: seq<Item>) {
    && (forall key :: key in m ==> exists i: nat :: LastAt(items, i, key))
    && (forall i: nat, key :: LastAt(items, i, key) ==> key in m && m[key] == items[i].1)
  }

  lemma {:induction false} TextsHaveNoSemicolon(items: seq<Item>)
    requires forall item :: item in items ==> Printable(item)
    ensures forall t :: t in Texts(items) ==> ';' !in t
  {
    if items != [] {
      TextsHaveNoSemicolon(items[..|items| - 1]);
      assert items[|items| - 1] in items;
    }
  }

  /** A further pair takes the place of those before it with the same key. */
  lemma LastAtStep(items: seq<Item>, item: Item, i: nat, key: string)
    ensures LastAt(items + [item], i, key) <==>
              if i == |items| then key == item.0 else key != item.0 && LastAt(items, i, key)
  {
    var all, n := items + [item], |items|;
    assert all[n] == item && forall j :: 0 <= j < n ==> all[j] == items[j];
  }

  lemma LastValuesStep(m: map<string, string>, items: seq<Item>, item: Item)
    requires LastValues(m, items)
    ensures LastValues(m[item.0 := item.1], items + [item])
  {
    var all, n, after := items + [item], |items|, m[item.0 := item.1];
    forall i: nat, key | LastAt(all, i, key)
      ensures key in after && after[key] == all[i].1
    {
      LastAtStep(items, item, i, key);
    }
    forall key | key in after
      ensures exists i: nat :: LastAt(all, i, key)
    {
      LastAtStep(items, item, n, key);
      if key != item.0 {
        var i: nat :| LastAt(items, i, key);
        LastAtStep(items, item, i, key);
      }
    }
  }

  lemma {:induction false} PropertiesAreLastValues(items: seq<Item>)
    requires forall item :: item in items ==> Printable(item)
    ensures Properties(Texts(items)).Ok? && LastValues(Properties(Texts(items)).value, items)
  {
    if items != [] {
      var k := |items| - 1;
      var item := items[k];
      PropertiesAreLastValues(items[..k]);
      assert item in items;
      assert Texts(items)[..k] == Texts(items[..k]);
      SplitsAtFirst(item.0, item.1, '=');
      LastValuesStep(Properties(Texts(items[..k])).value, items[..k], item);
      assert items[..k] + [item] == items;
    }
  }

  /** The pieces of the list come back from the printed list. */
  lemma ItemsAreSplit(items: seq<Item>)
    requires items != [] && forall item :: item in items ==> Printable(item)
    ensures var j := Joined(Texts(items), ';'); j != [] && Split(j[..|j| - 1], ';') == Texts(items)
  {
    TextsHaveNoSemicolon(items);
    SplitJoined(Texts(items), ';');
  }

  /** What the device calls its features. */
  ghost predicate FeaturesAre(b: Banner, items: seq<Item>) {
    && (forall i: nat :: LastAt(items, i, "features") ==> b.features == set f | f in Split(items[i].1, ','))
    && ((forall i :: 0 <= i < |items| ==> items[i].0 != "features") ==> b.features == {""})
  }

  lemma KindIsSplit(kind: string, rest: string)
    requires Separates(kind, ':') && Properties(Split(rest, ';')).Ok?
    ensures var m := Properties(Split(rest, ';')).value;
            Parse(kind + "::" + rest)
            == Ok(Banner(if kind == "device" then Device else Other(kind), m - {"features"},
                         FeatureSet(if "features" in m then m["features"] else "")))
  {
    SplitsAtDouble(kind, rest, ':');
  }

  /** What parsing makes of the printed properties. */
  lemma PrintedParses(kind: string, items: seq<Item>)
    requires Separates(kind, ':') && items != [] && forall item :: item in items ==> Printable(item)
    ensures Properties(Texts(items)).Ok?
    ensures var m := Properties(Texts(items)).value;
            Parse(Printed(kind, items))
            == Ok(Banner(if kind == "device" then Device else Other(kind), m - {"features"},
                         FeatureSet(if "features" in m then m["features"] else "")))
  {
    var j := Joined(Texts(items), ';');
    ItemsAreSplit(items);
    var rest := j[..|j| - 1];
    assert Printed(kind, items) == kind + "::" + rest;
    PropertiesAreLastValues(items);
    KindIsSplit(kind, rest);
  }

  /** Every banner that a device prints is understood, in whatever order and however often its properties come: the
      last value of each key counts, "features" is no property but the list of features, and the kind tells devices
      from everything else. The kind must not end in a colon nor contain two in a row. */
  lemma BannerIsUnderstood(kind: string, items: seq<Item>)
    requires Separates(kind, ':') && items != [] && forall item :: item in items ==> Printable(item)
    ensures var b := Parse(Printed(kind, items));
            && b.Ok?
            && (b.value.deviceType.Device? <==> kind == "device")
            && (b.value.deviceType.Other? ==> b.value.deviceType.name == kind)
            && (forall key :: key in b.value.properties <==>
                  key != "features" && exists i: nat :: LastAt(items, i, key))
            && (forall i: nat, key :: key != "features" && LastAt(items, i, key) ==>
                  b.value.properties[key] == items[i].1)
            && FeaturesAre(b.value, items)
  {
    PrintedParses(kind, items);
    PropertiesAreLastValues(items);
    if forall i :: 0 <= i < |items| ==> items[i].0 != "features" {
      assert "features" !in Properties(Texts(items)).value;
      assert Split("", ',') == [""];
    }
  }

  /** For a kind that does end in a colon or contain two in a row the text is split too early, and another kind is
      read. */
  lemma ColonsMislead(kind: string, items: seq<Item>)
    requires items != [] && !Separates(kind, ':') && Parse(Printed(kind, items)).Ok?
    ensures var t := Parse(Printed(kind, items)).value.deviceType; t != Other(kind) && (t.Device? ==> kind != "device")
  {
    var j := Joined(Texts(items), ';');
    var rest := if j == [] then "" else j[..|j| - 1];
    SplitsAtDouble(kind, rest, ':');
    var s := kind + "::" + rest;
    SplitOnceJoins(s, "::");
    var (a, b) := SplitOnce(s, "::").value;
    if a == kind {
      Sequences.Parts(kind + "::", rest);
      Sequences.Parts(kind + "::", b);
    }
  }
}
