/** The construction of a watch/warning/advisory record: its geometry becomes a
    list of polygon exteriors, and its properties become attributes, with the
    issue and expiry times parsed, the phenomenon, significance and geometry-type
    codes looked up in the VTEC tables, and every other value kept as text. */
module WwaVtec {
  import opened Common
  import opened Calendar
  import opened Vtec

  // ---------------------------------------------------------------------------
  // Geometry

  /** Nested JSON arrays as the record's `coordinates` holds them, with leaves of
      type `P` (the numbers of a coordinate pair). */
  datatype Json<P> = Leaf(value: P) | Array(items: seq<Json<P>>)

  /** `v[0]`: a leaf is not subscriptable and an empty array has no first item. */
  function First<P>(v: Json<P>): (r: Result<Json<P>>)
    ensures r.Ok? <==> v.Array? && |v.items| > 0
    ensures r.Ok? ==> r.value == v.items[0]
    ensures v.Leaf? ==> r == Err(TypeError)
    ensures v.Array? && |v.items| == 0 ==> r == Err(IndexError)
  {
    match v
    case Leaf(_) => Err(TypeError)
    case Array(items) => if |items| == 0 then Err(IndexError) else Ok(items[0])
  }

  /** `[coord[0] for coord in parts]`, stopping at the first part that has no
      first item. */
  function Exteriors<P>(parts: seq<Json<P>>): (r: Result<seq<Json<P>>>)
    ensures r.Ok? <==> forall i :: 0 <= i < |parts| ==> First(parts[i]).Ok?
    ensures r.Ok? ==> |r.value| == |parts|
    ensures r.Ok? ==> forall i :: 0 <= i < |parts| ==> r.value[i] == parts[i].items[0]
    ensures r.Err? ==> exists k :: 0 <= k < |parts| && First(parts[k]) == Err(r.error)
                         && forall i :: 0 <= i < k ==> First(parts[i]).Ok?
  {
    if |parts| == 0 then Ok([])
    else
      match First(parts[0])
      case Err(e) => Err(e)
      case Ok(ring) =>
        match Exteriors(parts[1..])
        case Err(e) =>
          var k :| 0 <= k < |parts[1..]| && First(parts[1..][k]) == Err(e)
                   && forall i :: 0 <= i < k ==> First(parts[1..][i]).Ok?;
          assert First(parts[k + 1]) == Err(e);
          Err(e)
        case Ok(rest) =>
          assert forall i :: 1 <= i < |parts| ==> parts[i] == parts[1..][i - 1];
          Ok([ring] + rest)
  }

  /** The polygon exteriors of a geometry: a `Polygon` gives the single exterior
      `coordinates[0]`; any other type is read as a multi-polygon and gives the
      exterior of each of its parts. A coordinate that is not an array is a
      `TypeError`, an empty one where an item is needed an `IndexError`. */
  function Polygons<P>(kind: string, coords: Json<P>): (r: Result<seq<Json<P>>>)
    ensures kind == "Polygon" ==> r == (match First(coords) case Ok(ring) => Ok([ring]) case Err(e) => Err(e))
    ensures kind != "Polygon" && coords.Leaf? ==> r == Err(TypeError)
    ensures kind != "Polygon" && coords.Array? ==> r == Exteriors(coords.items)
  {
    if kind == "Polygon" then
      match First(coords)
      case Ok(ring) => Ok([ring])
      case Err(e) => Err(e)
    else
      match coords
      case Leaf(_) => Err(TypeError)
      case Array(parts) => Exteriors(parts)
  }

  /** A `Polygon` record yields exactly one polygon; any other record yields one
      polygon per part of its coordinates, each the first ring of that part. */
  lemma PolygonCount<P>(kind: string, coords: Json<P>)
    requires Polygons(kind, coords).Ok?
    ensures kind == "Polygon" ==> Polygons(kind, coords).value == [coords.items[0]]
    ensures kind != "Polygon" ==> coords.Array? && |Polygons(kind, coords).value| == |coords.items|
    ensures kind != "Polygon" ==> forall i :: 0 <= i < |coords.items| ==>
      (coords.items[i].Array? && Polygons(kind, coords).value[i] == coords.items[i].items[0])
  {
    if kind != "Polygon" {
      var parts := coords.items;
      forall i | 0 <= i < |parts|
        ensures parts[i].Array?
      {
        assert First(parts[i]).Ok?;
      }
    }
  }

  // ---------------------------------------------------------------------------
  // Properties

  /** The value an attribute is set to. */
  datatype Attr = Timestamp(at: DateTime) | TableValue(entry: Entry) | Text(value: string)

  predicate IsTimeKey(key: string)
  {
    key == "ISSUED" || key == "EXPIRED"
  }

  /** The attribute name a property key is stored under: `TYPE` is renamed
      `PHENOM`, every other key keeps its name. */
  function StoredName(key: string): (name: string)
    ensures name == "PHENOM" <==> key == "TYPE" || key == "PHENOM"
    ensures key != "TYPE" ==> name == key
  {
    if key == "TYPE" then "PHENOM" else key
  }

  /** One property: the attribute name and value it sets, or the exception the
      conversion raises (`ValueError` for a malformed time, `KeyError` for a
      code its table does not have). */
  function Decode(key: string, val: string): (r: Result<(string, Attr)>)
    ensures r.Ok? ==> r.value.0 == StoredName(key)
    ensures r.Err? ==> (if IsTimeKey(key) then r.error == ValueError else r.error == KeyError)
  {
    if IsTimeKey(key) then
      match Parse(CompactMinuteFormat, val)
      case None => Err(ValueError)
      case Some(t) => Ok((key, Timestamp(t)))
    else
      var name := StoredName(key);
      match TableNamed(name)
      case None => Ok((name, Text(val)))
      case Some(table) =>
        match Lookup(table, val)
        case Err(e) => Err(e)
        case Ok(entry) => Ok((name, TableValue(entry)))
  }

  /** A printed minute decodes back to that time under either time key. */
  lemma DecodeTimeText(key: string, d: DateTime)
    requires IsTimeKey(key)
    requires FourDigitYear(d) && d.second == 0
    ensures Decode(key, Format(CompactMinuteFormat, d)) == Ok((key, Timestamp(d)))
  {
    CompactMinuteRoundTrip(d);
  }

  /** A table code decodes to its entry; a phenomenon code does so under
      `PHENOM` whether the key is `TYPE` or `PHENOM`. */
  lemma DecodeCodeText(key: string, p: PhenomCode, g: Significance, k: GeometryType)
    requires key == "TYPE" || key == "PHENOM"
    ensures Decode(key, PhenomText(p)) == Ok(("PHENOM", TableValue(PhenomenonEntry(PhenomEntry(p)))))
    ensures Decode("SIG", SigText(g)) == Ok(("SIG", TableValue(Label(SigName(g)))))
    ensures Decode("GTYPE", GTypeText(k)) == Ok(("GTYPE", TableValue(Label(GTypeName(k)))))
  {
    LookupText(p, g, k);
  }

  /** The value of a key that is neither a time nor a table name is kept as text. */
  lemma DecodeOtherText(key: string, val: string)
    requires !IsTimeKey(key) && key != "TYPE" && key != "PHENOM" && key != "SIG" && key != "GTYPE"
    ensures Decode(key, val) == Ok((key, Text(val)))
  {
  }

  /** A property fails exactly when its time does not parse or its code is not
      in the table its name refers to. */
  lemma DecodeFails(key: string, val: string)
    ensures Decode(key, val).Err? <==>
      if IsTimeKey(key) then Parse(CompactMinuteFormat, val).None?
      else match TableNamed(StoredName(key))
        case None => false
        case Some(PhenomTable) => ParsePhenom(val).None?
        case Some(SigTable) => ParseSig(val).None?
        case Some(GTypeTable) => ParseGType(val).None?
  {
  }

  /** `TYPE` and `PHENOM` are decoded alike, so both set the same attribute. */
  lemma TypeIsPhenom(val: string)
    ensures Decode("TYPE", val) == Decode("PHENOM", val)
  {
  }

  /** A decoder of one property into the attribute name and value it sets. */
  type Decoder = (string, string) -> Result<(string, Attr)>

  /** The property loop for a given decoder: each pair in order sets its
      attribute over the ones set so far; the first failing pair raises its
      exception. */
  function Fold(props: seq<(string, string)>, attrs: map<string, Attr>, decode: Decoder): (r: Result<map<string, Attr>>)
    decreases |props|
  {
    if |props| == 0 then Ok(attrs)
    else
      match decode(props[0].0, props[0].1)
      case Err(e) => Err(e)
      case Ok(kv) => Fold(props[1..], attrs[kv.0 := kv.1], decode)
  }

  /** The property loop of the constructor. */
  function Properties(props: seq<(string, string)>, attrs: map<string, Attr>): (r: Result<map<string, Attr>>)
  {
    Fold(props, attrs, Decode)
  }

  /** The loop fails exactly when some property fails to decode, and then with
      the exception of the first such property. */
  lemma {:induction false} FoldFail(props: seq<(string, string)>, attrs: map<string, Attr>, decode: Decoder)
    ensures Fold(props, attrs, decode).Err? <==> exists i :: 0 <= i < |props| && decode(props[i].0, props[i].1).Err?
    ensures Fold(props, attrs, decode).Err? ==> exists i :: (0 <= i < |props|
      && decode(props[i].0, props[i].1) == Err(Fold(props, attrs, decode).error)
      && forall j :: 0 <= j < i ==> decode(props[j].0, props[j].1).Ok?)
    decreases |props|
  {
    if |props| > 0 {
      var tail := props[1..];
      var r := Fold(props, attrs, decode);
      match decode(props[0].0, props[0].1)
      case Err(e) =>
        assert r == Err(e);
      case Ok(kv) =>
        var next := attrs[kv.0 := kv.1];
        assert r == Fold(tail, next, decode);
        FoldFail(tail, next, decode);
        if r.Err? {
          var i :| 0 <= i < |tail| && decode(tail[i].0, tail[i].1) == Err(r.error)
                   && forall j :: 0 <= j < i ==> decode(tail[j].0, tail[j].1).Ok?;
          assert props[i + 1] == tail[i];
          assert forall j :: 1 <= j < i + 1 ==> props[j] == tail[j - 1];
        } else {
          forall i | 0 <= i < |props|
            ensures decode(props[i].0, props[i].1).Ok?
          {
            if i > 0 { assert props[i] == tail[i - 1]; }
          }
        }
    }
  }

  /** After a successful loop the attribute names are the ones set before plus
      the name every property sets. */
  lemma {:induction false} FoldNames(props: seq<(string, string)>, attrs: map<string, Attr>, decode: Decoder)
    requires Fold(props, attrs, decode).Ok?
    ensures forall i :: 0 <= i < |props| ==> decode(props[i].0, props[i].1).Ok?
    ensures Fold(props, attrs, decode).value.Keys ==
      attrs.Keys + set i | 0 <= i < |props| && decode(props[i].0, props[i].1).Ok? :: decode(props[i].0, props[i].1).value.0
    decreases |props|
  {
    FoldFail(props, attrs, decode);
    if |props| > 0 {
      var tail := props[1..];
      var kv := decode(props[0].0, props[0].1).value;
      FoldNames(tail, attrs[kv.0 := kv.1], decode);
      var names := set i | 0 <= i < |props| && decode(props[i].0, props[i].1).Ok? :: decode(props[i].0, props[i].1).value.0;
      var tailNames := set i | 0 <= i < |tail| && decode(tail[i].0, tail[i].1).Ok? :: decode(tail[i].0, tail[i].1).value.0;
      assert names == {kv.0} + tailNames by {
        forall n | n in names ensures n in {kv.0} + tailNames {
          var i :| 0 <= i < |props| && decode(props[i].0, props[i].1).Ok? && n == decode(props[i].0, props[i].1).value.0;
          if i > 0 { assert props[i] == tail[i - 1]; }
        }
        forall n | n in tailNames ensures n in names {
          var i :| 0 <= i < |tail| && decode(tail[i].0, tail[i].1).Ok? && n == decode(tail[i].0, tail[i].1).value.0;
          assert tail[i] == props[i + 1];
        }
      }
    }
  }

  /** A name no property sets keeps the value it had before the loop. */
  lemma {:induction false} FoldKeepsUnset(props: seq<(string, string)>, attrs: map<string, Attr>, decode: Decoder, name: string)
    requires Fold(props, attrs, decode).Ok?
    requires name in attrs
    requires forall j :: 0 <= j < |props| && decode(props[j].0, props[j].1).Ok? ==> decode(props[j].0, props[j].1).value.0 != name
    ensures name in Fold(props, attrs, decode).value && Fold(props, attrs, decode).value[name] == attrs[name]
    decreases |props|
  {
    if |props| > 0 {
      var tail := props[1..];
      var kv := decode(props[0].0, props[0].1).value;
      forall j | 0 <= j < |tail| && decode(tail[j].0, tail[j].1).Ok?
        ensures decode(tail[j].0, tail[j].1).value.0 != name
      {
        assert tail[j] == props[j + 1];
      }
      FoldKeepsUnset(tail, attrs[kv.0 := kv.1], decode, name);
    }
  }

  /** A later key wins: after a successful loop, the attribute a property sets
      holds that property's value unless a later property sets the same name. */
  lemma {:induction false} FoldLastWins(props: seq<(string, string)>, attrs: map<string, Attr>, decode: Decoder, i: nat)
    requires Fold(props, attrs, decode).Ok?
    requires i < |props|
    requires decode(props[i].0, props[i].1).Ok?
    requires forall j :: i < j < |props| && decode(props[j].0, props[j].1).Ok? ==>
      decode(props[j].0, props[j].1).value.0 != decode(props[i].0, props[i].1).value.0
    ensures var kv := decode(props[i].0, props[i].1).value;
      kv.0 in Fold(props, attrs, decode).value && Fold(props, attrs, decode).value[kv.0] == kv.1
    decreases |props|
  {
    var tail := props[1..];
    var kv := decode(props[0].0, props[0].1).value;
    var next := attrs[kv.0 := kv.1];
    if i == 0 {
      forall j | 0 <= j < |tail| && decode(tail[j].0, tail[j].1).Ok?
        ensures decode(tail[j].0, tail[j].1).value.0 != kv.0
      {
        assert tail[j] == props[j + 1];
      }
      FoldKeepsUnset(tail, next, decode, kv.0);
    } else {
      assert tail[i - 1] == props[i];
      forall j | i - 1 < j < |tail| && decode(tail[j].0, tail[j].1).Ok?
        ensures decode(tail[j].0, tail[j].1).value.0 != decode(tail[i - 1].0, tail[i - 1].1).value.0
      {
        assert tail[j] == props[j + 1];
      }
      FoldLastWins(tail, next, decode, i - 1);
    }
  }

  /** The constructor's loop fails exactly when some property fails to decode,
      with the exception of the first one that does. */
  lemma PropertiesFail(props: seq<(string, string)>, attrs: map<string, Attr>)
    ensures Properties(props, attrs).Err? <==> exists i :: 0 <= i < |props| && Decode(props[i].0, props[i].1).Err?
    ensures Properties(props, attrs).Err? ==> exists i :: (0 <= i < |props|
      && Decode(props[i].0, props[i].1) == Err(Properties(props, attrs).error)
      && forall j :: 0 <= j < i ==> Decode(props[j].0, props[j].1).Ok?)
  {
    FoldFail(props, attrs, Decode);
  }

  /** The attribute names after the constructor's loop are the stored names of
      the property keys, added to those set before. */
  lemma PropertiesNames(props: seq<(string, string)>, attrs: map<string, Attr>)
    requires Properties(props, attrs).Ok?
    ensures Properties(props, attrs).value.Keys == attrs.Keys + set i | 0 <= i < |props| :: StoredName(props[i].0)
  {
    FoldNames(props, attrs, Decode);
    var stored := set i | 0 <= i < |props| :: StoredName(props[i].0);
    var decoded := set i | 0 <= i < |props| && Decode(props[i].0, props[i].1).Ok? :: Decode(props[i].0, props[i].1).value.0;
    assert stored == decoded by {
      forall n | n in stored ensures n in decoded {
        var i :| 0 <= i < |props| && n == StoredName(props[i].0);
        assert Decode(props[i].0, props[i].1).value.0 == n;
      }
    }
  }

  /** In the constructor's loop a later key wins: a property whose stored name no
      later key shares leaves its decoded value as the attribute. */
  lemma PropertiesLastWins(props: seq<(string, string)>, attrs: map<string, Attr>, i: nat)
    requires Properties(props, attrs).Ok?
    requires i < |props|
    requires forall j :: i < j < |props| ==> StoredName(props[j].0) != StoredName(props[i].0)
    ensures Decode(props[i].0, props[i].1).Ok?
    ensures var kv := Decode(props[i].0, props[i].1).value;
      kv.0 in Properties(props, attrs).value && Properties(props, attrs).value[kv.0] == kv.1
  {
    FoldFail(props, attrs, Decode);
    FoldLastWins(props, attrs, Decode, i);
  }

  /** A record with both `TYPE` and `PHENOM` keeps the phenomenon of whichever
      comes last. */
  lemma PhenomFromLaterKey(first: PhenomCode, second: PhenomCode)
    ensures Properties([("TYPE", PhenomText(first)), ("PHENOM", PhenomText(second))], map[]) ==
      Ok(map["PHENOM" := TableValue(PhenomenonEntry(PhenomEntry(second)))])
  {
    DecodeCodeText("TYPE", first, Warning, PolygonBased);
    DecodeCodeText("PHENOM", second, Warning, PolygonBased);
    FoldSameNameTwice("TYPE", PhenomText(first), "PHENOM", PhenomText(second), Decode);
  }

  /** Two properties that set the same name leave the second one's value. */
  lemma FoldSameNameTwice(k1: string, v1: string, k2: string, v2: string, decode: Decoder)
    requires decode(k1, v1).Ok? && decode(k2, v2).Ok? && decode(k1, v1).value.0 == decode(k2, v2).value.0
    ensures Fold([(k1, v1), (k2, v2)], map[], decode) == Ok(map[decode(k2, v2).value.0 := decode(k2, v2).value.1])
  {
    var props := [(k1, v1), (k2, v2)];
    var first := decode(k1, v1).value;
    var second := decode(k2, v2).value;
    assert props[1..] == [(k2, v2)] && props[1..][1..] == [];
    assert Fold(props, map[], decode) == Fold(props[1..], map[first.0 := first.1], decode);
    assert Fold(props[1..], map[first.0 := first.1], decode)
        == Fold(props[1..][1..], map[first.0 := first.1][second.0 := second.1], decode);
    assert map[first.0 := first.1][second.0 := second.1] == map[second.0 := second.1];
  }

  // ---------------------------------------------------------------------------
  // Record

  /** A shapefile record: its geometry type and coordinates, and its properties
      in the order the record lists them. */
  datatype Record<P> = Record(kind: string, coordinates: Json<P>, properties: seq<(string, string)>)

  /** The constructed object: its polygons and its attributes. */
  datatype Alert<P> = Alert(polygons: seq<Json<P>>, attributes: map<string, Attr>)

  /** The constructor: polygons first, then the property loop over no attributes. */
  function Build<P>(rec: Record<P>): (r: Result<Alert<P>>)
    ensures r.Ok? <==> Polygons(rec.kind, rec.coordinates).Ok? && Properties(rec.properties, map[]).Ok?
    ensures r.Ok? ==> r.value.polygons == Polygons(rec.kind, rec.coordinates).value
    ensures r.Ok? ==> r.value.attributes == Properties(rec.properties, map[]).value
    ensures r.Err? && Polygons(rec.kind, rec.coordinates).Err? ==> r.error == Polygons(rec.kind, rec.coordinates).error
  {
    match Polygons(rec.kind, rec.coordinates)
    case Err(e) => Err(e)
    case Ok(polys) =>
      match Properties(rec.properties, map[])
      case Err(e) => Err(e)
      case Ok(attrs) => Ok(Alert(polys, attrs))
  }

  /** The attributes of a built record are named by the stored names of its keys. */
  lemma BuildNames<P>(rec: Record<P>)
    requires Build(rec).Ok?
    ensures Build(rec).value.attributes.Keys == set i | 0 <= i < |rec.properties| :: StoredName(rec.properties[i].0)
  {
    PropertiesNames(rec.properties, map[]);
  }
}
