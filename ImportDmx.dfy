/**
 * import_dmx_to_sequencer: reads the CSV the converter wrote, finds the point
 * lights labelled PointLight0 .. PointLight63 in the level, and gives each one
 * an Intensity track with one key per CSV row.
 *
 * The editor is reached only through the calls recorded by `Sequencer`:
 * creating the level sequence, binding a light (add_possessable, add_track,
 * add_section and the channel lookup together), and adding a key.
 */
module ImportDmx {
  import opened Results
  import opened Text
  import opened CsvTable

  const SEQUENCE_PATH: string := "/Game/Sequences/LightAnimation"
  const NUM_LIGHTS: nat := 64
  const LABEL_PREFIX: string := "PointLight"
  /** Intensity in the editor is the CSV value times this factor. */
  const INTENSITY_SCALE: real := 5000.0

  // ---------------------------------------------------------------------------
  // Where a missing sequence is created
  // ---------------------------------------------------------------------------

  datatype AssetLocation = AssetLocation(packagePath: string, assetName: string)

  /** The arguments given to create_asset: the last '/'-separated piece of the path is the asset name,
      the pieces before it joined by '/' are the package path. */
  function AssetLocationOf(path: string): (loc: AssetLocation)
    ensures '/' !in loc.assetName
  {
    var parts := SplitOn(path, '/');
    AssetLocation(JoinWith(parts[..|parts| - 1], '/'), parts[|parts| - 1])
  }

  /** The asset name is the text after the last '/', and the package path is everything before that '/'. */
  lemma AssetLocationSplits(path: string)
    ensures '/' !in AssetLocationOf(path).assetName
    ensures '/' in path ==> path == AssetLocationOf(path).packagePath + "/" + AssetLocationOf(path).assetName
    ensures '/' !in path ==> AssetLocationOf(path) == AssetLocation("", path)
  {
    var parts := SplitOn(path, '/');
    JoinSplitOn(path, '/');
    if |parts| >= 2 {
      JoinWithLast(parts, '/');
    } else {
      assert JoinWith(parts, '/') == parts[0];
    }
  }

  /** A path made of a package path, '/', and a name without '/' gives back that package path and name:
      the inverse of writing the path as package path + "/" + asset name. */
  lemma AssetLocationOfJoin(packagePath: string, assetName: string)
    requires '/' !in assetName
    ensures AssetLocationOf(packagePath + "/" + assetName) == AssetLocation(packagePath, assetName)
  {
    var path := packagePath + "/" + assetName;
    var loc := AssetLocationOf(path);
    AssetLocationSplits(path);
    assert path[|packagePath|] == '/';
    LastSeparatorUnique(loc.packagePath, loc.assetName, packagePath, assetName);
  }

  /** A string splits at its last '/' in only one way. */
  lemma LastSeparatorUnique(a: string, b: string, c: string, d: string)
    requires '/' !in b && '/' !in d
    requires a + "/" + b == c + "/" + d
    ensures a == c && b == d
  {
    var s := a + "/" + b;
    LastSeparatorAt(a, b);
    LastSeparatorAt(c, d);
    assert |a| == |c|;
    assert b == s[|a| + 1..];
    assert d == s[|c| + 1..];
    assert a == s[..|a|];
    assert c == s[..|c|];
  }

  lemma LastSeparatorAt(a: string, b: string)
    requires '/' !in b
    ensures (a + "/" + b)[|a|] == '/'
    ensures forall i :: |a| < i < |a| + 1 + |b| ==> (a + "/" + b)[i] != '/'
  {
    forall i | |a| < i < |a| + 1 + |b| ensures (a + "/" + b)[i] != '/' {
      assert (a + "/" + b)[i] == b[i - |a| - 1];
    }
  }

  /** The sequence is created as LightAnimation in /Game/Sequences. */
  lemma SequenceAssetLocation()
    ensures AssetLocationOf(SEQUENCE_PATH) == AssetLocation("/Game/Sequences", "LightAnimation")
  {
    assert SEQUENCE_PATH == "/Game/Sequences" + "/" + "LightAnimation";
    AssetLocationOfJoin("/Game/Sequences", "LightAnimation");
  }

  // ---------------------------------------------------------------------------
  // Finding the point lights
  // ---------------------------------------------------------------------------

  /** A level actor: its identity (which object it is), whether it is a PointLight, and its label. Two
      actors may share a label; they are still different objects. */
  datatype Actor = Actor(id: nat, isPointLight: bool, actorLabel: string)

  /** f"PointLight{i}" */
  function LightLabel(i: nat): (s: string)
    ensures |s| > |LABEL_PREFIX| && s[..|LABEL_PREFIX|] == LABEL_PREFIX && IsDigits(s[|LABEL_PREFIX|..])
  {
    LABEL_PREFIX + NatToString(i)
  }

  /** The script stores `actor` as light `i`. */
  predicate Binds(actor: Actor, i: nat) {
    actor.isPointLight && i < NUM_LIGHTS && actor.actorLabel == LightLabel(i)
  }

  /** The light index a label names, read back from its digits: the prefix, then the canonical decimal
      form of a number below NUM_LIGHTS (no sign, no leading zero). */
  function LightIndexOf(actorLabel: string): Option<nat> {
    var n := |LABEL_PREFIX|;
    if |actorLabel| > n && actorLabel[..n] == LABEL_PREFIX && IsDigits(actorLabel[n..]) then
      var i := DigitsValue(actorLabel[n..]);
      if i < NUM_LIGHTS && NatToString(i) == actorLabel[n..] then Some(i) else None
    else None
  }

  /** A label equals f"PointLight{i}" for some i in range(64) exactly when it names light i. */
  lemma LightIndexOfIff(actorLabel: string, i: nat)
    ensures LightIndexOf(actorLabel) == Some(i) <==> i < NUM_LIGHTS && actorLabel == LightLabel(i)
  {
    var n := |LABEL_PREFIX|;
    if i < NUM_LIGHTS && actorLabel == LightLabel(i) {
      assert actorLabel[..n] == LABEL_PREFIX && actorLabel[n..] == NatToString(i);
      DigitsValueOfNatToString(i);
    }
    if LightIndexOf(actorLabel) == Some(i) {
      assert actorLabel == actorLabel[..n] + actorLabel[n..];
    }
  }

  /** One entry of the point_lights dict. */
  datatype Entry = Entry(light: nat, actor: Actor)

  /** The keys of a dict, in iteration order. */
  function Lights(entries: seq<Entry>): (ls: seq<nat>)
    ensures |ls| == |entries|
  {
    if entries == [] then [] else [entries[0].light] + Lights(entries[1..])
  }

  /** dict.get: the actor stored for a light, if any. */
  function Get(entries: seq<Entry>, light: nat): Option<Actor> {
    if entries == [] then None
    else if entries[0].light == light then Some(entries[0].actor)
    else Get(entries[1..], light)
  }

  predicate Distinct(ls: seq<nat>) {
    forall p, q :: 0 <= p < q < |ls| ==> ls[p] != ls[q]
  }

  /** point_lights[light] = actor: an existing key keeps its place and gets the new actor; a new key goes
      to the end of the iteration order. */
  function Put(entries: seq<Entry>, light: nat, actor: Actor): (r: seq<Entry>)
    ensures Entry(light, actor) in r
    ensures |r| == |entries| || |r| == |entries| + 1
  {
    if entries == [] then [Entry(light, actor)]
    else if entries[0].light == light then [Entry(light, actor)] + entries[1..]
    else [entries[0]] + Put(entries[1..], light, actor)
  }

  lemma {:induction false} LightsIndex(entries: seq<Entry>, p: nat)
    requires p < |entries|
    ensures Lights(entries)[p] == entries[p].light
  {
    if p > 0 {
      LightsIndex(entries[1..], p - 1);
    }
  }

  /** Put behaves as dict assignment: the key order grows only by a new key, at the end, keys stay
      distinct, and only the assigned light's actor changes. */
  lemma PutSpec(entries: seq<Entry>, light: nat, actor: Actor)
    requires Distinct(Lights(entries))
    ensures Lights(Put(entries, light, actor)) ==
      if light in Lights(entries) then Lights(entries) else Lights(entries) + [light]
    ensures Distinct(Lights(Put(entries, light, actor)))
    ensures forall j :: Get(Put(entries, light, actor), j) == if j == light then Some(actor) else Get(entries, j)
  {
    PutLights(entries, light, actor);
    PutGet(entries, light, actor);
    var ls := Lights(entries);
    if light !in ls {
      var r := Lights(Put(entries, light, actor));
      forall p, q | 0 <= p < q < |r| ensures r[p] != r[q] {
        if q == |r| - 1 {
          assert r[p] == ls[p];
        } else {
          assert r[p] == ls[p] && r[q] == ls[q];
        }
      }
    }
  }

  /** The key order after an assignment: unchanged for an existing key, one new key at the end otherwise. */
  lemma {:induction false} PutLights(entries: seq<Entry>, light: nat, actor: Actor)
    ensures Lights(Put(entries, light, actor)) ==
      if light in Lights(entries) then Lights(entries) else Lights(entries) + [light]
  {
    if entries != [] {
      var ls := Lights(entries);
      assert ls == [entries[0].light] + Lights(entries[1..]);
      if entries[0].light != light {
        PutLights(entries[1..], light, actor);
        assert Lights(Put(entries, light, actor)) == [entries[0].light] + Lights(Put(entries[1..], light, actor));
        assert light in ls <==> light in Lights(entries[1..]);
      } else {
        assert Lights(Put(entries, light, actor)) == [light] + Lights(entries[1..]);
      }
    }
  }

  /** Reading a dict after an assignment: the assigned light gives the new actor, every other light what
      it gave before. */
  lemma {:induction false} PutGet(entries: seq<Entry>, light: nat, actor: Actor)
    ensures forall j :: Get(Put(entries, light, actor), j) == if j == light then Some(actor) else Get(entries, j)
  {
    if entries != [] && entries[0].light != light {
      PutGet(entries[1..], light, actor);
    }
  }


  /** Light `light` is a key of the dict exactly when dict.get finds an actor for it. */
  lemma {:induction false} GetIffLight(entries: seq<Entry>, light: nat)
    ensures Get(entries, light).Some? <==> light in Lights(entries)
  {
    if entries != [] {
      GetIffLight(entries[1..], light);
    }
  }

  /** The inner loop over range(NUM_LIGHTS) for one actor, after its first n passes. */
  function BindLabels(entries: seq<Entry>, actor: Actor, n: nat): (r: seq<Entry>)
    requires n <= NUM_LIGHTS
    ensures |entries| <= |r| <= |entries| + n
  {
    if n == 0 then entries
    else
      var prev := BindLabels(entries, actor, n - 1);
      if actor.actorLabel == LightLabel(n - 1) then Put(prev, n - 1, actor) else prev
  }

  /** One pass of the outer loop: only a PointLight is matched against the labels. */
  function BindActor(entries: seq<Entry>, actor: Actor): (r: seq<Entry>)
    ensures |entries| <= |r| <= |entries| + 1
  {
    BindLabelsSpec(entries, actor, NUM_LIGHTS);
    if actor.isPointLight then BindLabels(entries, actor, NUM_LIGHTS) else entries
  }

  /** point_lights after the loop over all_actors. */
  function BindAll(actors: seq<Actor>): (entries: seq<Entry>)
    ensures |entries| <= |actors|
  {
    if actors == [] then []
    else
      BindActorSpec(BindAll(actors[..|actors| - 1]), actors[|actors| - 1]);
      BindActor(BindAll(actors[..|actors| - 1]), actors[|actors| - 1])
  }

  /** Among actors that bind the same light, the stored one is the last: it comes after every other
      actor that binds the light, so an earlier actor with the same label is overwritten. */
  lemma {:induction false} LastBinderAfter(actors: seq<Actor>, i: nat, q: nat)
    requires q < |actors| && Binds(actors[q], i)
    ensures exists r :: q <= r < |actors| && LastBinder(actors, i) == Some(actors[r])
  {
    var n := |actors| - 1;
    if !Binds(actors[n], i) {
      var p := actors[..n];
      assert p[q] == actors[q];
      LastBinderAfter(p, i, q);
      var r :| q <= r < |p| && LastBinder(p, i) == Some(p[r]);
      assert p[r] == actors[r];
    }
  }

  /** point_lights[i] = actor overwrites: when two different objects are both labelled for light i, the
      earlier one is not what the dict holds for i after the loop. */
  lemma LaterActorReplaces(actors: seq<Actor>, i: nat, p: nat, q: nat)
    requires forall a, b :: 0 <= a < b < |actors| ==> actors[a].id != actors[b].id
    requires p < q < |actors| && Binds(actors[p], i) && Binds(actors[q], i)
    ensures Get(BindAll(actors), i).Some?
    ensures Get(BindAll(actors), i) != Some(actors[p])
    ensures exists r :: q <= r < |actors| && Get(BindAll(actors), i) == Some(actors[r])
  {
    BindAllGet(actors);
    LastBinderAfter(actors, i, q);
    var r :| q <= r < |actors| && LastBinder(actors, i) == Some(actors[r]);
    assert actors[p].id != actors[r].id;
  }

  /** The first n passes of the inner loop store the actor under the one light its actorLabel names, if that
      light is below n, and change nothing otherwise. */
  lemma {:induction false} BindLabelsSpec(entries: seq<Entry>, actor: Actor, n: nat)
    requires n <= NUM_LIGHTS
    ensures BindLabels(entries, actor, n) ==
      var idx := LightIndexOf(actor.actorLabel);
      if idx.Some? && idx.value < n then Put(entries, idx.value, actor) else entries
  {
    if n > 0 {
      BindLabelsSpec(entries, actor, n - 1);
      LightIndexOfIff(actor.actorLabel, n - 1);
    }
  }

  /** An actor is stored under light i exactly when it binds i, and then under no other light. */
  lemma BindActorSpec(entries: seq<Entry>, actor: Actor)
    ensures BindActor(entries, actor) ==
      if actor.isPointLight && LightIndexOf(actor.actorLabel).Some?
      then Put(entries, LightIndexOf(actor.actorLabel).value, actor)
      else entries
    ensures actor.isPointLight && LightIndexOf(actor.actorLabel).Some? ==> Binds(actor, LightIndexOf(actor.actorLabel).value)
    ensures forall i: nat :: Binds(actor, i) ==> LightIndexOf(actor.actorLabel) == Some(i)
  {
    BindLabelsSpec(entries, actor, NUM_LIGHTS);
    if LightIndexOf(actor.actorLabel).Some? {
      LightIndexOfIff(actor.actorLabel, LightIndexOf(actor.actorLabel).value);
    }
    forall i: nat | Binds(actor, i) ensures LightIndexOf(actor.actorLabel) == Some(i) {
      LightIndexOfIff(actor.actorLabel, i);
    }
  }

  /** Reference definition: the last actor of the list that binds light i, if any. */
  function LastBinder(actors: seq<Actor>, i: nat): (r: Option<Actor>)
    ensures r.Some? ==> Binds(r.value, i) && r.value in actors
  {
    if actors == [] then None
    else if Binds(actors[|actors| - 1], i) then Some(actors[|actors| - 1])
    else LastBinder(actors[..|actors| - 1], i)
  }

  /** Reference definition: the position of the first actor that binds light i, or |actors| if none does. */
  function FirstBinder(actors: seq<Actor>, i: nat): (k: nat)
    ensures k <= |actors|
  {
    if actors == [] then 0
    else
      var k := FirstBinder(actors[..|actors| - 1], i);
      if k < |actors| - 1 then k
      else if Binds(actors[|actors| - 1], i) then |actors| - 1
      else |actors|
  }

  /** FirstBinder finds the first actor that binds light i: it binds i and no actor before it does. */
  lemma {:induction false} FirstBinderSpec(actors: seq<Actor>, i: nat)
    ensures FirstBinder(actors, i) < |actors| ==> Binds(actors[FirstBinder(actors, i)], i)
    ensures forall k :: 0 <= k < FirstBinder(actors, i) ==> !Binds(actors[k], i)
  {
    if actors != [] {
      var p := actors[..|actors| - 1];
      FirstBinderSpec(p, i);
      forall k | 0 <= k < FirstBinder(actors, i) ensures !Binds(actors[k], i) {
        if k < |p| {
          assert actors[k] == p[k];
        }
      }
    }
  }

  /** LastBinder finds an actor exactly when FirstBinder does. */
  lemma {:induction false} BinderExists(actors: seq<Actor>, i: nat)
    ensures LastBinder(actors, i).Some? <==> FirstBinder(actors, i) < |actors|
  {
    if actors != [] {
      BinderExists(actors[..|actors| - 1], i);
    }
  }

  /** After the loop, dict.get(i) is the last actor that binds light i: a later actor with the same actorLabel
      replaces an earlier one, and the keys are distinct. */
  lemma {:induction false} BindAllGet(actors: seq<Actor>)
    ensures Distinct(Lights(BindAll(actors)))
    ensures forall i :: Get(BindAll(actors), i) == LastBinder(actors, i)
  {
    if actors != [] {
      var p := actors[..|actors| - 1];
      var a := actors[|actors| - 1];
      BindAllGet(p);
      BindActorSpec(BindAll(p), a);
      if a.isPointLight && LightIndexOf(a.actorLabel).Some? {
        PutSpec(BindAll(p), LightIndexOf(a.actorLabel).value, a);
      }
    }
  }

  /** The keys of point_lights are the lights some actor binds, in the order in which they were first
      bound. */
  lemma {:induction false} BindAllOrder(actors: seq<Actor>)
    ensures forall i :: i in Lights(BindAll(actors)) <==> FirstBinder(actors, i) < |actors|
    ensures forall p, q :: 0 <= p < q < |BindAll(actors)| ==>
      FirstBinder(actors, Lights(BindAll(actors))[p]) < FirstBinder(actors, Lights(BindAll(actors))[q])
  {
    if actors != [] {
      var p := actors[..|actors| - 1];
      var a := actors[|actors| - 1];
      var lp := Lights(BindAll(p));
      var ls := Lights(BindAll(actors));
      BindAllOrder(p);
      var idx := LightIndexOf(a.actorLabel);
      var binds := a.isPointLight && idx.Some?;
      var isNew := binds && idx.value !in lp;
      assert ls == if isNew then lp + [idx.value] else lp by {
        BindAllGet(p);
        BindActorSpec(BindAll(p), a);
        if binds {
          PutSpec(BindAll(p), idx.value, a);
        }
      }
      assert forall i :: Binds(a, i) <==> binds && idx.value == i by {
        BindActorSpec(BindAll(p), a);
      }
      forall i | i in lp ensures FirstBinder(actors, i) == FirstBinder(p, i) {
      }
      if isNew {
        assert FirstBinder(actors, idx.value) == |p|;
        forall q | 0 <= q < |ls| - 1 ensures FirstBinder(actors, ls[q]) < |p| {
          assert ls[q] == lp[q];
        }
      }
    }
  }

  /** The outer loop over all_actors with its inner loop over range(NUM_LIGHTS). */
  method BindPointLights(actors: seq<Actor>) returns (pointLights: seq<Entry>)
    ensures pointLights == BindAll(actors)
  {
    pointLights := [];
    var k := 0;
    while k < |actors|
      invariant 0 <= k <= |actors|
      invariant pointLights == BindAll(actors[..k])
    {
      var actor := actors[k];
      assert actors[..k + 1][..k] == actors[..k];
      if actor.isPointLight {
        var before := pointLights;
        var i := 0;
        while i < NUM_LIGHTS
          invariant 0 <= i <= NUM_LIGHTS
          invariant pointLights == BindLabels(before, actor, i)
        {
          if actor.actorLabel == LightLabel(i) {
            pointLights := Put(pointLights, i, actor);
          }
          i := i + 1;
        }
      }
      k := k + 1;
    }
    assert actors[..k] == actors;
  }

  /** With distinct keys, the entry at position n is what dict.get finds for its light. */
  lemma {:induction false} GetAt(entries: seq<Entry>, n: nat)
    requires Distinct(Lights(entries))
    requires n < |entries|
    ensures Get(entries, entries[n].light) == Some(entries[n].actor)
  {
    if n > 0 {
      var ls := Lights(entries);
      LightsIndex(entries, 0);
      LightsIndex(entries, n);
      assert entries[0].light != entries[n].light by {
        assert ls[0] != ls[n];
      }
      assert Distinct(Lights(entries[1..])) by {
        assert Lights(entries[1..]) == ls[1..];
      }
      GetAt(entries[1..], n - 1);
    }
  }

  /** Every key of the dict sits at some position. */
  lemma PositionOf(entries: seq<Entry>, light: nat) returns (n: nat)
    requires light in Lights(entries)
    ensures n < |entries| && entries[n].light == light
  {
    var ls := Lights(entries);
    var k :| 0 <= k < |ls| && ls[k] == light;
    LightsIndex(entries, k);
    n := k;
  }

  /** A sequence of distinct numbers below m has at most m elements. */
  lemma {:induction false} DistinctBounded(ls: seq<nat>, m: nat)
    requires Distinct(ls)
    requires forall k :: 0 <= k < |ls| ==> ls[k] < m
    ensures |ls| <= m
    decreases m
  {
    if ls != [] {
      assert ls[0] < m;
    }
    if m > 0 {
      if m - 1 in ls {
        var j :| 0 <= j < |ls| && ls[j] == m - 1;
        var rest := ls[..j] + ls[j + 1..];
        assert forall k :: 0 <= k < |rest| ==> rest[k] == if k < j then ls[k] else ls[k + 1];
        DistinctBounded(rest, m - 1);
      } else {
        DistinctBounded(ls, m - 1);
      }
    }
  }

  /** Every key of point_lights is a light below NUM_LIGHTS. */
  lemma BindAllLightsBelow(actors: seq<Actor>)
    ensures forall p :: 0 <= p < |BindAll(actors)| ==> BindAll(actors)[p].light < NUM_LIGHTS
  {
    var entries := BindAll(actors);
    BindAllGet(actors);
    forall p | 0 <= p < |entries| ensures entries[p].light < NUM_LIGHTS {
      LightsIndex(entries, p);
      GetIffLight(entries, entries[p].light);
    }
  }

  /** point_lights never holds more than NUM_LIGHTS entries. */
  lemma BindAllBounded(actors: seq<Actor>)
    ensures |BindAll(actors)| <= NUM_LIGHTS
  {
    var entries := BindAll(actors);
    var ls := Lights(entries);
    BindAllGet(actors);
    BindAllLightsBelow(actors);
    forall k | 0 <= k < |ls| ensures ls[k] < NUM_LIGHTS {
      LightsIndex(entries, k);
    }
    DistinctBounded(ls, NUM_LIGHTS);
  }

  // ---------------------------------------------------------------------------
  // Keys
  // ---------------------------------------------------------------------------

  /** The editor calls the script makes. Bind(light, actor) stands for add_possessable, add_track of the
      Intensity float track, add_section and taking the section's first float channel. */
  datatype HostCall =
    | CreateSequence(location: AssetLocation)
    | Bind(light: nat, actor: Actor)
    | AddKey(light: nat, frame: nat, value: real)

  /** The exceptions that end the import: next() on an empty file, a row too short for the light's
      index, and a cell float() rejects. */
  datatype ImportError =
    | NoHeader
    | ColumnMissing(frame: nat, light: nat)
    | NotANumber(frame: nat, light: nat, text: string)

  /** Calls made, and the error that ended them, if any. */
  datatype Emission = Emission(calls: seq<HostCall>, failure: Option<ImportError>)

  /** float(frame_values[light_index]) for the row at position `frame` of frame_data. */
  function Brightness(row: Row, frame: nat, light: nat): (r: Result<real, ImportError>)
    ensures r.Failure? ==> r.error.ColumnMissing? || r.error.NotANumber?
    ensures r == Failure(ColumnMissing(frame, light)) <==> light >= |row|
    ensures light < |row| && row[light].Num? ==> r == Success(row[light].value)
  {
    if light >= |row| then Failure(ColumnMissing(frame, light))
    else match row[light]
      case Num(v) => Success(v)
      case Str(text) =>
        if IsDigits(text) then Success(DigitsValue(text) as real) else Failure(NotANumber(frame, light, text))
  }

  /** The key loop for one light over the rows, stopping at the first row it cannot read. */
  function ChannelKeys(rows: seq<Row>, light: nat): (e: Emission)
    ensures |e.calls| <= |rows|
  {
    if rows == [] then Emission([], None)
    else
      var prev := ChannelKeys(rows[..|rows| - 1], light);
      if prev.failure.Some? then prev
      else match Brightness(rows[|rows| - 1], |rows| - 1, light)
        case Failure(e) => Emission(prev.calls, Some(e))
        case Success(b) => Emission(prev.calls + [AddKey(light, |rows| - 1, b * INTENSITY_SCALE)], None)
  }

  /** Key k sits on frame k and carries the light's column of row k times 5000. The loop finishes exactly
      when every row can be read, with one key per row; otherwise it stops at the first row it cannot
      read, reporting that row's error, with one key for each row before it. */
  lemma {:induction false} ChannelKeysSpec(rows: seq<Row>, light: nat)
    ensures |ChannelKeys(rows, light).calls| <= |rows|
    ensures forall k :: 0 <= k < |ChannelKeys(rows, light).calls| ==>
      && Brightness(rows[k], k, light).Success?
      && ChannelKeys(rows, light).calls[k] == AddKey(light, k, Brightness(rows[k], k, light).value * INTENSITY_SCALE)
    ensures ChannelKeys(rows, light).failure == None <==>
      forall k :: 0 <= k < |rows| ==> Brightness(rows[k], k, light).Success?
    ensures ChannelKeys(rows, light).failure == None ==> |ChannelKeys(rows, light).calls| == |rows|
    ensures ChannelKeys(rows, light).failure.Some? ==>
      && |ChannelKeys(rows, light).calls| < |rows|
      && Brightness(rows[|ChannelKeys(rows, light).calls|], |ChannelKeys(rows, light).calls|, light)
         == Failure(ChannelKeys(rows, light).failure.value)
  {
    if rows != [] {
      var p := rows[..|rows| - 1];
      ChannelKeysSpec(p, light);
      var prev := ChannelKeys(p, light);
      forall k | 0 <= k < |p| ensures rows[k] == p[k] {
      }
      if prev.failure == None {
        var c := ChannelKeys(rows, light);
        forall k | 0 <= k < |c.calls|
          ensures Brightness(rows[k], k, light).Success?
          ensures c.calls[k] == AddKey(light, k, Brightness(rows[k], k, light).value * INTENSITY_SCALE)
        {
          if k < |prev.calls| {
            assert c.calls[k] == prev.calls[k];
          }
        }
      }
    }
  }

  /** Two rows that agree on their cells below column m, and on whether those cells exist. */
  predicate SameLeadingCells(row: Row, other: Row, m: nat) {
    forall j :: 0 <= j < m ==> (j < |row| <==> j < |other|) && (j < |row| ==> row[j] == other[j])
  }

  /** Reading light `light` looks only at the cell in column `light`. */
  lemma BrightnessLeadingCells(row: Row, other: Row, m: nat, frame: nat, light: nat)
    requires light < m && SameLeadingCells(row, other, m)
    ensures Brightness(row, frame, light) == Brightness(other, frame, light)
  {
  }

  /** The key loop of a light below m gives the same calls and failure on rows that agree below column m. */
  lemma {:induction false} ChannelKeysLeadingCells(rows: seq<Row>, others: seq<Row>, m: nat, light: nat)
    requires light < m && |rows| == |others|
    requires forall k :: 0 <= k < |rows| ==> SameLeadingCells(rows[k], others[k], m)
    ensures ChannelKeys(rows, light) == ChannelKeys(others, light)
  {
    if rows != [] {
      var n := |rows| - 1;
      ChannelKeysLeadingCells(rows[..n], others[..n], m, light);
      BrightnessLeadingCells(rows[n], others[n], m, n, light);
    }
  }

  /** The track loop over lights below m gives the same calls and failure on rows that agree below column m. */
  lemma {:induction false} TrackKeysLeadingCells(rows: seq<Row>, others: seq<Row>, m: nat, entries: seq<Entry>)
    requires |rows| == |others|
    requires forall k :: 0 <= k < |rows| ==> SameLeadingCells(rows[k], others[k], m)
    requires forall p :: 0 <= p < |entries| ==> entries[p].light < m
    ensures TrackKeys(rows, entries) == TrackKeys(others, entries)
  {
    if entries != [] {
      var n := |entries| - 1;
      TrackKeysLeadingCells(rows, others, m, entries[..n]);
      ChannelKeysLeadingCells(rows, others, m, entries[n].light);
    }
  }

  /** A row with no cell at the light's index (an IndexError in Python) stops that light's key loop. */
  lemma ShortRowStopsKeys(rows: seq<Row>, light: nat, k: nat)
    requires k < |rows| && light >= |rows[k]|
    ensures ChannelKeys(rows, light).failure.Some?
    ensures |ChannelKeys(rows, light).calls| <= k
  {
    ChannelKeysSpec(rows, light);
  }

  /** Once the key loop has failed on a prefix of the rows, the remaining rows add nothing. */
  lemma {:induction false} ChannelKeysStopsAtFailure(rows: seq<Row>, light: nat, n: nat)
    requires n <= |rows|
    requires ChannelKeys(rows[..n], light).failure.Some?
    ensures ChannelKeys(rows, light) == ChannelKeys(rows[..n], light)
  {
    if n == |rows| {
      assert rows[..n] == rows;
    } else {
      var p := rows[..|rows| - 1];
      assert p[..n] == rows[..n];
      ChannelKeysStopsAtFailure(p, light, n);
    }
  }

  /** The loop over point_lights.items(): bind the light, then key it on every row, stopping at the
      first error. */
  function TrackKeys(rows: seq<Row>, entries: seq<Entry>): (r: Emission)
    ensures |r.calls| <= |entries| * (1 + |rows|)
  {
    if entries == [] then Emission([], None)
    else
      var prev := TrackKeys(rows, entries[..|entries| - 1]);
      assert (|entries| - 1) * (1 + |rows|) + 1 + |rows| == |entries| * (1 + |rows|);
      if prev.failure.Some? then prev
      else
        var e := entries[|entries| - 1];
        var channel := ChannelKeys(rows, e.light);
        Emission(prev.calls + [Bind(e.light, e.actor)] + channel.calls, channel.failure)
  }

  /** Once the track loop has failed on a prefix of the lights, the remaining lights add nothing. */
  lemma {:induction false} TrackKeysStopsAtFailure(rows: seq<Row>, entries: seq<Entry>, n: nat)
    requires n <= |entries|
    requires TrackKeys(rows, entries[..n]).failure.Some?
    ensures TrackKeys(rows, entries) == TrackKeys(rows, entries[..n])
  {
    if n == |entries| {
      assert entries[..n] == entries;
    } else {
      var p := entries[..|entries| - 1];
      assert p[..n] == entries[..n];
      TrackKeysStopsAtFailure(rows, p, n);
    }
  }

  /** One more row in the key loop of a light: a readable row adds its key, an unreadable one ends the
      loop for good. */
  lemma ChannelKeysSnoc(rows: seq<Row>, light: nat, n: nat)
    requires n < |rows|
    requires ChannelKeys(rows[..n], light).failure == None
    ensures Brightness(rows[n], n, light).Success? ==>
      ChannelKeys(rows[..n + 1], light) ==
        Emission(ChannelKeys(rows[..n], light).calls + [AddKey(light, n, Brightness(rows[n], n, light).value * INTENSITY_SCALE)], None)
    ensures Brightness(rows[n], n, light).Failure? ==>
      ChannelKeys(rows, light) == Emission(ChannelKeys(rows[..n], light).calls, Some(Brightness(rows[n], n, light).error))
  {
    assert rows[..n + 1][..n] == rows[..n];
    if Brightness(rows[n], n, light).Failure? {
      ChannelKeysStopsAtFailure(rows, light, n + 1);
    }
  }

  /** One more light in the track loop: its binding and its key loop are appended. */
  lemma TrackKeysSnoc(rows: seq<Row>, entries: seq<Entry>, n: nat)
    requires n < |entries|
    requires TrackKeys(rows, entries[..n]).failure == None
    ensures TrackKeys(rows, entries[..n + 1]) ==
      Emission(TrackKeys(rows, entries[..n]).calls + [Bind(entries[n].light, entries[n].actor)] + ChannelKeys(rows, entries[n].light).calls,
               ChannelKeys(rows, entries[n].light).failure)
  {
    assert entries[..n + 1][..n] == entries[..n];
  }

  /** The import of the keys finishes exactly when every bound light can read every row; it then binds
      each light once and adds one key per row for it. */
  lemma {:induction false} TrackKeysSucceedsIff(rows: seq<Row>, entries: seq<Entry>)
    ensures TrackKeys(rows, entries).failure == None <==>
      forall p :: 0 <= p < |entries| ==> ChannelKeys(rows, entries[p].light).failure == None
  {
    if entries != [] {
      var p := entries[..|entries| - 1];
      TrackKeysSucceedsIff(rows, p);
      forall q | 0 <= q < |p| ensures entries[q] == p[q] {
      }
      if TrackKeys(rows, p).failure.Some? {
        var q :| 0 <= q < |p| && ChannelKeys(rows, p[q].light).failure != None;
        assert entries[q] == p[q];
      }
    }
  }

  /** A finished import makes one binding and one key per row for every light: |point_lights| times
      (1 + len(frame_data)) calls. */
  lemma {:induction false} TrackKeysCount(rows: seq<Row>, entries: seq<Entry>)
    ensures TrackKeys(rows, entries).failure == None ==>
      |TrackKeys(rows, entries).calls| == |entries| * (1 + |rows|)
  {
    if entries != [] {
      var p := entries[..|entries| - 1];
      var e := entries[|entries| - 1];
      TrackKeysCount(rows, p);
      if TrackKeys(rows, entries).failure == None {
        assert TrackKeys(rows, p).failure == None;
        assert |ChannelKeys(rows, e.light).calls| == |rows| by {
          ChannelKeysSpec(rows, e.light);
        }
        assert |entries| * (1 + |rows|) == |p| * (1 + |rows|) + 1 + |rows|;
      }
    }
  }

  /** The calls that concern one light, in order. */
  function CallsFor(calls: seq<HostCall>, light: nat): seq<HostCall> {
    if calls == [] then []
    else
      var c := calls[|calls| - 1];
      CallsFor(calls[..|calls| - 1], light) + if !c.CreateSequence? && c.light == light then [c] else []
  }

  lemma {:induction false} CallsForConcat(a: seq<HostCall>, b: seq<HostCall>, light: nat)
    ensures CallsFor(a + b, light) == CallsFor(a, light) + CallsFor(b, light)
  {
    if b != [] {
      CallsForConcat(a, b[..|b| - 1], light);
      assert (a + b)[..|a + b| - 1] == a + b[..|b| - 1];
    } else {
      assert a + b == a;
    }
  }

  /** The key loop of a light only adds keys for that light. */
  lemma {:induction false} ChannelKeysCallsFor(rows: seq<Row>, light: nat, other: nat)
    ensures CallsFor(ChannelKeys(rows, light).calls, other) ==
      if other == light then ChannelKeys(rows, light).calls else []
  {
    if rows != [] {
      var p := rows[..|rows| - 1];
      ChannelKeysCallsFor(p, light, other);
      var prev := ChannelKeys(p, light);
      if prev.failure == None {
        var c := ChannelKeys(rows, light);
        if c.calls != prev.calls {
          assert c.calls[..|c.calls| - 1] == prev.calls;
        }
      }
    }
  }

  /** The calls one more light adds that concern `light`: its binding and keys if it is that light,
      nothing otherwise. */
  lemma TrackKeysCallsForSnoc(rows: seq<Row>, entries: seq<Entry>, light: nat)
    requires entries != []
    requires TrackKeys(rows, entries[..|entries| - 1]).failure == None
    ensures
      var e := entries[|entries| - 1];
      CallsFor(TrackKeys(rows, entries).calls, light) ==
        CallsFor(TrackKeys(rows, entries[..|entries| - 1]).calls, light)
        + (if e.light == light then [Bind(e.light, e.actor)] + ChannelKeys(rows, e.light).calls else [])
  {
    var e := entries[|entries| - 1];
    var prev := TrackKeys(rows, entries[..|entries| - 1]);
    var bind := [Bind(e.light, e.actor)];
    var channel := ChannelKeys(rows, e.light).calls;
    var before := CallsFor(prev.calls, light);
    var all := CallsFor(TrackKeys(rows, entries).calls, light);
    assert TrackKeys(rows, entries).calls == prev.calls + bind + channel by {
      assert entries[..|entries| - 1 + 1] == entries;
      TrackKeysSnoc(rows, entries, |entries| - 1);
    }
    assert all == before + CallsFor(bind, light) + CallsFor(channel, light) by {
      CallsForConcat(prev.calls + bind, channel, light);
      CallsForConcat(prev.calls, bind, light);
    }
    assert CallsFor(bind, light) == if e.light == light then bind else [] by {
      assert bind[..0] == [];
    }
    assert CallsFor(channel, light) == if e.light == light then channel else [] by {
      ChannelKeysCallsFor(rows, e.light, light);
    }
    if e.light == light {
      assert all == before + (bind + channel);
    } else {
      assert all == before + [] + [];
      assert all == before + [];
    }
  }

  /** A light that is not in point_lights gets no call at all. */
  lemma {:induction false} TrackKeysOtherLight(rows: seq<Row>, entries: seq<Entry>, light: nat)
    requires light !in Lights(entries)
    ensures CallsFor(TrackKeys(rows, entries).calls, light) == []
  {
    if entries != [] {
      var p := entries[..|entries| - 1];
      LightsSnoc(entries);
      TrackKeysOtherLight(rows, p, light);
      if TrackKeys(rows, p).failure == None {
        TrackKeysCallsForSnoc(rows, entries, light);
      }
    }
  }

  /** With distinct lights and a finished import, the calls for a light of point_lights are its binding
      followed by its own key loop over all rows. */
  lemma {:induction false} TrackKeysPerLight(rows: seq<Row>, entries: seq<Entry>, n: nat)
    requires Distinct(Lights(entries))
    requires n < |entries|
    requires TrackKeys(rows, entries).failure == None
    ensures CallsFor(TrackKeys(rows, entries).calls, entries[n].light) ==
      [Bind(entries[n].light, entries[n].actor)] + ChannelKeys(rows, entries[n].light).calls
  {
    var p := entries[..|entries| - 1];
    var e := entries[|entries| - 1];
    var light := entries[n].light;
    DistinctSnoc(entries);
    assert TrackKeys(rows, p).failure == None;
    TrackKeysCallsForSnoc(rows, entries, light);
    if n < |p| {
      assert p[n] == entries[n];
      LightsIndex(p, n);
      TrackKeysPerLight(rows, p, n);
    } else {
      TrackKeysOtherLight(rows, p, light);
      assert [] + ([Bind(light, e.actor)] + ChannelKeys(rows, light).calls) == [Bind(light, e.actor)] + ChannelKeys(rows, light).calls;
    }
  }

  /** Dropping the last entry keeps the keys distinct, and the last key is not among the others. */
  lemma DistinctSnoc(entries: seq<Entry>)
    requires entries != []
    requires Distinct(Lights(entries))
    ensures Lights(entries) == Lights(entries[..|entries| - 1]) + [entries[|entries| - 1].light]
    ensures Distinct(Lights(entries[..|entries| - 1]))
    ensures entries[|entries| - 1].light !in Lights(entries[..|entries| - 1])
  {
    LightsSnoc(entries);
    DistinctPrefix(Lights(entries));
    assert Lights(entries)[..|entries| - 1] == Lights(entries[..|entries| - 1]);
  }

  lemma DistinctPrefix(ls: seq<nat>)
    requires ls != [] && Distinct(ls)
    ensures Distinct(ls[..|ls| - 1])
    ensures ls[|ls| - 1] !in ls[..|ls| - 1]
  {
  }

  lemma {:induction false} LightsSnoc(entries: seq<Entry>)
    requires entries != []
    ensures Lights(entries) == Lights(entries[..|entries| - 1]) + [entries[|entries| - 1].light]
  {
    if |entries| > 1 {
      LightsSnoc(entries[1..]);
      assert entries[1..][..|entries| - 2] == entries[..|entries| - 1][1..];
    }
  }

  // ---------------------------------------------------------------------------
  // The script
  // ---------------------------------------------------------------------------

  /** The level sequence in the editor, seen through the calls made on it. */
  class Sequencer {
    var calls: seq<HostCall>

    constructor ()
      ensures calls == []
    {
      calls := [];
    }

    /** AssetTools.create_asset for a LevelSequence. */
    method CreateAsset(location: AssetLocation)
      modifies this
      ensures calls == old(calls) + [CreateSequence(location)]
    {
      calls := calls + [CreateSequence(location)];
    }

    /** add_possessable, add_track, add_section and get_channels_by_type(...)[0] for one light. */
    method AddTrack(light: nat, actor: Actor)
      modifies this
      ensures calls == old(calls) + [Bind(light, actor)]
    {
      calls := calls + [Bind(light, actor)];
    }

    /** intensity_channel.add_key on a whole frame number, sub-frame 0.0, display rate. */
    method AddKey(light: nat, frame: nat, value: real)
      modifies this
      ensures calls == old(calls) + [HostCall.AddKey(light, frame, value)]
    {
      calls := calls + [HostCall.AddKey(light, frame, value)];
    }
  }

  /** The key loop over enumerate(frame_data) for one light: frame k gets float(frame_data[k][light])
      times 5000, until a row cannot be read. */
  method AddChannelKeys(frameData: seq<Row>, light: nat, sequencer: Sequencer) returns (failure: Option<ImportError>)
    modifies sequencer
    ensures sequencer.calls == old(sequencer.calls) + ChannelKeys(frameData, light).calls
    ensures failure == ChannelKeys(frameData, light).failure
  {
    var frame := 0;
    while frame < |frameData|
      invariant 0 <= frame <= |frameData|
      invariant ChannelKeys(frameData[..frame], light).failure == None
      invariant sequencer.calls == old(sequencer.calls) + ChannelKeys(frameData[..frame], light).calls
    {
      var brightness := Brightness(frameData[frame], frame, light);
      ChannelKeysSnoc(frameData, light, frame);
      if brightness.Failure? {
        return Some(brightness.error);
      }
      sequencer.AddKey(light, frame, brightness.value * INTENSITY_SCALE);
      frame := frame + 1;
    }
    assert frameData[..frame] == frameData;
    failure := None;
  }

  /** The loop over point_lights.items(): bind each light, then run its key loop; the first error ends
      the import. */
  method AddTracks(frameData: seq<Row>, pointLights: seq<Entry>, sequencer: Sequencer)
    returns (failure: Option<ImportError>)
    modifies sequencer
    ensures sequencer.calls == old(sequencer.calls) + TrackKeys(frameData, pointLights).calls
    ensures failure == TrackKeys(frameData, pointLights).failure
  {
    var p := 0;
    while p < |pointLights|
      invariant 0 <= p <= |pointLights|
      invariant TrackKeys(frameData, pointLights[..p]).failure == None
      invariant sequencer.calls == old(sequencer.calls) + TrackKeys(frameData, pointLights[..p]).calls
    {
      var entry := pointLights[p];
      TrackKeysSnoc(frameData, pointLights, p);
      ghost var done := TrackKeys(frameData, pointLights[..p + 1]);
      sequencer.AddTrack(entry.light, entry.actor);
      failure := AddChannelKeys(frameData, entry.light, sequencer);
      assert sequencer.calls == old(sequencer.calls) + done.calls;
      if failure.Some? {
        TrackKeysStopsAtFailure(frameData, pointLights, p + 1);
        return;
      }
      p := p + 1;
    }
    assert pointLights[..p] == pointLights;
    failure := None;
  }

  /** The message printed at the end: len(frame_data) frames for len(point_lights) lights. */
  datatype ImportSummary = ImportSummary(frames: nat, lights: nat)

  /** What the import does to the editor after the sequence is found or created. */
  function ImportCalls(csvRows: seq<Row>, actors: seq<Actor>): (r: Emission)
    ensures |r.calls| <= |BindAll(actors)| * |csvRows|
  {
    if csvRows == [] then Emission([], Some(NoHeader))
    else TrackKeys(csvRows[1..], BindAll(actors))
  }

  /** import_dmx_to_sequencer: find or create the sequence, skip the CSV header, collect the point lights,
      then bind and key each one; report frames and lights, or the error that stopped the import. */
  method ImportDmxToSequencer(sequenceExists: bool, csvRows: seq<Row>, actors: seq<Actor>, sequencer: Sequencer)
    returns (r: Result<ImportSummary, ImportError>)
    modifies sequencer
    ensures sequencer.calls == old(sequencer.calls)
      + (if sequenceExists then [] else [CreateSequence(AssetLocationOf(SEQUENCE_PATH))])
      + ImportCalls(csvRows, actors).calls
    ensures ImportCalls(csvRows, actors).failure.Some? ==> r == Failure(ImportCalls(csvRows, actors).failure.value)
    ensures ImportCalls(csvRows, actors).failure == None ==>
      r == Success(ImportSummary(|csvRows| - 1, |BindAll(actors)|))
  {
    if !sequenceExists {
      var location := AssetLocationOf(SEQUENCE_PATH);
      sequencer.CreateAsset(location);
    }
    if csvRows == [] {
      return Failure(NoHeader);
    }
    var frameData := csvRows[1..];
    var pointLights := BindPointLights(actors);
    var failure := AddTracks(frameData, pointLights, sequencer);
    if failure.Some? {
      return Failure(failure.value);
    }
    r := Success(ImportSummary(|frameData|, |pointLights|));
  }

  /** A finished import binds exactly the lights some point light is labelled for: each once, to the last
      actor with that label, followed by one key per CSV row after the header; every other light gets no
      call. */
  lemma ImportKeysPerLight(csvRows: seq<Row>, actors: seq<Actor>, light: nat)
    requires ImportCalls(csvRows, actors).failure == None
    ensures csvRows != []
    ensures LastBinder(actors, light).None? ==> CallsFor(ImportCalls(csvRows, actors).calls, light) == []
    ensures LastBinder(actors, light).Some? ==>
      CallsFor(ImportCalls(csvRows, actors).calls, light) ==
        [Bind(light, LastBinder(actors, light).value)] + ChannelKeys(csvRows[1..], light).calls
    ensures LastBinder(actors, light).Some? ==>
      && ChannelKeys(csvRows[1..], light).failure == None
      && |ChannelKeys(csvRows[1..], light).calls| == |csvRows| - 1
      && |CallsFor(ImportCalls(csvRows, actors).calls, light)| == |csvRows|
  {
    var entries := BindAll(actors);
    BindAllGet(actors);
    GetIffLight(entries, light);
    if light in Lights(entries) {
      var n := PositionOf(entries, light);
      GetAt(entries, n);
      TrackKeysPerLight(csvRows[1..], entries, n);
      TrackKeysSucceedsIff(csvRows[1..], entries);
      assert ChannelKeys(csvRows[1..], entries[n].light).failure == None;
      ChannelKeysSpec(csvRows[1..], light);
    } else {
      TrackKeysOtherLight(csvRows[1..], entries, light);
    }
  }
}
