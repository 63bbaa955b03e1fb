/** Configuration values as trees, the deep merge of an update, and the change report. */
module ConfigTree {
  import opened Wrappers

  // Dict is a mutable dictionary, Proxy a read-only view of one, Atom anything that is no
  // container.
  datatype Value =
    | Atom(content: int)
    | List(items: seq<Value>)
    | Tuple(items: seq<Value>)
    | Dict(entries: map<string, Value>)
    | Proxy(entries: map<string, Value>)

  type Entries = map<string, Value>

  predicate IsMapping(v: Value) {
    v.Dict? || v.Proxy?
  }

  // Where the merge descends: the target holds a dictionary, the update any mapping.
  predicate Merges(target: Entries, source: Entries, k: string) {
    k in target && k in source && target[k].Dict? && IsMapping(source[k])
  }

  function Merge(target: Entries, source: Value): Entries
    requires IsMapping(source)
    decreases source
  {
    var s := source.entries;
    map k | k in target.Keys + s.Keys ::
      if k !in s then target[k]
      else if Merges(target, s, k) then Dict(Merge(target[k].entries, s[k]))
      else s[k]
  }

  // Key by key: what the update does not name stays, two mappings under a dictionary's key are
  // merged, and everything else is replaced.
  lemma MergeKeyByKey(target: Entries, update: Value, k: string)
    requires IsMapping(update)
    ensures var merged, source := Merge(target, update), update.entries;
      && (k in merged <==> k in target || k in source)
      && (k in target && k !in source ==> merged[k] == target[k])
      && (k in source && k !in target ==> merged[k] == source[k])
      && (k in source && k in target && target[k].Dict? && (source[k].Dict? || source[k].Proxy?) ==>
            merged[k].Dict? && merged[k].entries == Merge(target[k].entries, source[k]))
      && (k in source && k in target && (!target[k].Dict? || source[k].Atom? || source[k].List? || source[k].Tuple?) ==>
            merged[k] == source[k])
  {
  }

  // ---- Path by path ------------------------------------------------------------

  function At(m: Entries, path: seq<string>): Option<Value>
    requires path != []
    decreases |path|
  {
    if path[0] !in m then None
    else if |path| == 1 then Some(m[path[0]])
    else if IsMapping(m[path[0]]) then At(m[path[0]].entries, path[1..])
    else None
  }

  // The update sets something on the way to path, other than by descending into a dictionary.
  ghost predicate Overwritten(target: Entries, source: Entries, path: seq<string>) {
    exists n :: 0 < n <= |path| && Sets(target, source, path[..n])
  }

  predicate Sets(target: Entries, source: Entries, path: seq<string>)
    requires path != []
  {
    var s, t := At(source, path), At(target, path);
    s.Some? && !(t.Some? && t.value.Dict? && IsMapping(s.value))
  }

  lemma OverwrittenStep(target: Entries, source: Entries, path: seq<string>)
    requires |path| > 1 && Merges(target, source, path[0])
    ensures Overwritten(target, source, path) <==>
      Overwritten(target[path[0]].entries, source[path[0]].entries, path[1..])
  {
    var t, s := target[path[0]].entries, source[path[0]].entries;
    forall n | 1 < n <= |path|
      ensures Sets(target, source, path[..n]) <==> Sets(t, s, path[1..][..n - 1])
    {
      assert path[..n][1..] == path[1..][..n - 1];
    }
    if Overwritten(t, s, path[1..]) {
      var n :| 0 < n <= |path[1..]| && Sets(t, s, path[1..][..n]);
      assert Sets(target, source, path[..n + 1]);
    }
    if Overwritten(target, source, path) {
      var n :| 0 < n <= |path| && Sets(target, source, path[..n]);
      assert n > 1;
      assert Sets(t, s, path[1..][..n - 1]);
    }
  }

  // At every path the update wins where it sets something; where it does not reach, the target
  // survives; and where it only descends there is a dictionary.
  lemma {:induction false} MergeAtPath(target: Entries, update: Value, path: seq<string>)
    requires IsMapping(update) && path != []
    ensures var merged, source := At(Merge(target, update), path), update.entries;
      if Overwritten(target, source, path) then merged == At(source, path)
      else if At(source, path) == None then merged == At(target, path)
      else merged.Some? && merged.value.Dict?
    decreases |path|
  {
    var k, source := path[0], update.entries;
    assert path[..1] == [k];
    if Merges(target, source, k) {
      assert !Sets(target, source, path[..1]);
      if |path| > 1 {
        OverwrittenStep(target, source, path);
        MergeAtPath(target[k].entries, source[k], path[1..]);
      } else {
        assert forall n :: 0 < n <= |path| ==> path[..n] == path[..1];
      }
    } else if k in source {
      assert Sets(target, source, path[..1]);
    } else {
      assert forall n :: 0 < n <= |path| ==> At(source, path[..n]) == None;
    }
  }

  lemma {:induction false} MergeWithItself(v: Value)
    requires IsMapping(v)
    ensures Merge(v.entries, v) == v.entries
    decreases v
  {
    var m := v.entries;
    forall k | k in m && Merges(m, m, k)
      ensures Merge(m[k].entries, m[k]) == m[k].entries
    {
      MergeWithItself(m[k]);
    }
  }

  // Applying an update twice is applying it once.
  lemma {:induction false} MergeIdempotent(target: Entries, update: Value)
    requires IsMapping(update)
    ensures Merge(Merge(target, update), update) == Merge(target, update)
    decreases update
  {
    var once, source := Merge(target, update), update.entries;
    forall k | k in source
      ensures Merge(once, update)[k] == once[k]
    {
      if Merges(target, source, k) {
        MergeIdempotent(target[k].entries, source[k]);
      } else if source[k].Dict? {
        MergeWithItself(source[k]);
      }
    }
  }

  // An update changes nothing exactly when everything it sets is there already.
  lemma {:induction false} MergeChangesNothingIff(target: Entries, update: Value)
    requires IsMapping(update)
    ensures Merge(target, update) == target <==> AllThere(target, update.entries)
    decreases update
  {
    if Merge(target, update) == target {
      forall path | path != [] && Sets(target, update.entries, path) ensures At(target, path) == At(update.entries, path) {
        assert path[..|path|] == path;
        MergeAtPath(target, update, path);
      }
    }
    if AllThere(target, update.entries) {
      forall k | k in update.entries ensures k in target && Merge(target, update)[k] == target[k] {
        ThereAtKey(target, update, k);
      }
    }
  }

  // Whatever the update sets, at whatever depth, the target holds already.
  ghost predicate AllThere(target: Entries, source: Entries) {
    forall path :: path != [] && Sets(target, source, path) ==> At(target, path) == At(source, path)
  }

  lemma {:induction false} ThereAtKey(target: Entries, update: Value, k: string)
    requires IsMapping(update) && AllThere(target, update.entries) && k in update.entries
    ensures k in target && Merge(target, update)[k] == target[k]
    decreases update, 0
  {
    var source := update.entries;
    if Merges(target, source, k) {
      var t, s := target[k].entries, source[k];
      forall path | path != [] && Sets(t, s.entries, path) ensures At(t, path) == At(s.entries, path) {
        assert ([k] + path)[1..] == path;
        assert Sets(target, source, [k] + path);
      }
      MergeChangesNothingIff(t, s);
    } else {
      assert Sets(target, source, [k]);
    }
  }

  // ---- Equality ------------------------------------------------------------------

  // A proxy equals the dictionary it shows: comparison looks through it. A list equals no tuple.
  function Plain(v: Value): Value {
    match v
    case Atom(_) => v
    case List(items) => List(seq(|items|, i requires 0 <= i < |items| => Plain(items[i])))
    case Tuple(items) => Tuple(seq(|items|, i requires 0 <= i < |items| => Plain(items[i])))
    case Dict(entries) => Dict(map k | k in entries :: Plain(entries[k]))
    case Proxy(entries) => Dict(map k | k in entries :: Plain(entries[k]))
  }

  function PlainEntries(m: Entries): Entries {
    map k | k in m :: Plain(m[k])
  }

  function PlainItems(items: seq<Value>): seq<Value> {
    seq(|items|, i requires 0 <= i < |items| => Plain(items[i]))
  }

  // A proxy shows its dictionary, dictionaries are equal key by key and sequences item by item, and
  // values of different kinds never are.
  lemma PlainEquality(v: Value, w: Value)
    ensures (v.Dict? || v.Proxy?) && (w.Dict? || w.Proxy?) ==>
      (Plain(v) == Plain(w) <==>
        v.entries.Keys == w.entries.Keys && forall k :: k in v.entries ==> Plain(v.entries[k]) == Plain(w.entries[k]))
    ensures (v.List? && w.List?) || (v.Tuple? && w.Tuple?) ==>
      (Plain(v) == Plain(w) <==>
        |v.items| == |w.items| && forall i :: 0 <= i < |v.items| ==> Plain(v.items[i]) == Plain(w.items[i]))
    ensures v.Atom? && w.Atom? ==> (Plain(v) == Plain(w) <==> v.content == w.content)
    ensures Plain(v) == Plain(w) && !v.Proxy? && !w.Proxy? ==>
      (v.Atom? <==> w.Atom?) && (v.List? <==> w.List?) && (v.Tuple? <==> w.Tuple?) && (v.Dict? <==> w.Dict?)
  {
    if (v.Dict? || v.Proxy?) && (w.Dict? || w.Proxy?) {
      SameEntriesIff(v.entries, w.entries);
    } else if (v.List? && w.List?) || (v.Tuple? && w.Tuple?) {
      SameItemsIff(v.items, w.items);
    }
  }

  lemma SameEntriesIff(m: Entries, n: Entries)
    ensures PlainEntries(m) == PlainEntries(n) <==>
      m.Keys == n.Keys && forall k :: k in m ==> Plain(m[k]) == Plain(n[k])
  {
    if PlainEntries(m) == PlainEntries(n) {
      assert PlainEntries(m).Keys == m.Keys && PlainEntries(n).Keys == n.Keys;
      forall k | k in m ensures Plain(m[k]) == Plain(n[k]) {
        assert PlainEntries(m)[k] == Plain(m[k]);
      }
    }
  }

  lemma SameItemsIff(s: seq<Value>, t: seq<Value>)
    ensures PlainItems(s) == PlainItems(t) <==> |s| == |t| && forall i :: 0 <= i < |s| ==> Plain(s[i]) == Plain(t[i])
  {
    if PlainItems(s) == PlainItems(t) {
      forall i | 0 <= i < |s| ensures Plain(s[i]) == Plain(t[i]) {
        assert PlainItems(s)[i] == PlainItems(t)[i];
      }
    }
  }

  // ---- The change report ------------------------------------------------------------

  datatype Change<+V> = Change(before: Option<V>, after: V)

  function Changes<V(==)>(before: map<string, V>, after: map<string, V>): map<string, Change<V>> {
    map k | k in after && (k !in before || before[k] != after[k]) ::
      Change(if k in before then Some(before[k]) else None, after[k])
  }

  method ComputeChanges<V(==)>(oldConfig: map<string, V>, newConfig: map<string, V>) returns (changes: map<string, Change<V>>)
    ensures changes == Changes(oldConfig, newConfig)
    ensures forall k :: k in changes <==> k in newConfig && (k in oldConfig ==> oldConfig[k] != newConfig[k])
    ensures forall k :: k in changes ==>
      changes[k].after == newConfig[k] && (if k in oldConfig then changes[k].before == Some(oldConfig[k]) else changes[k].before == None)
  {
    changes := map[];
    var keys := newConfig.Keys;
    while keys != {}
      invariant keys <= newConfig.Keys
      invariant changes == map k | k in Changes(oldConfig, newConfig) && k !in keys :: Changes(oldConfig, newConfig)[k]
      decreases keys
    {
      var key :| key in keys;
      keys := keys - {key};
      if key !in oldConfig || oldConfig[key] != newConfig[key] {
        changes := changes[key := Change(if key in oldConfig then Some(oldConfig[key]) else None, newConfig[key])];
      }
    }
  }

  function Replay<V>(before: map<string, V>, changes: map<string, Change<V>>): map<string, V> {
    before + map k | k in changes :: changes[k].after
  }

  // The report rebuilds the new configuration exactly when no key was dropped.
  lemma ReportRebuildsNewConfig<V>(before: map<string, V>, after: map<string, V>)
    ensures Replay(before, Changes(before, after)) == after <==> before.Keys <= after.Keys
    ensures before.Keys <= after.Keys ==> (Changes(before, after) == map[] <==> before == after)
  {
    var changes := Changes(before, after);
    if before.Keys <= after.Keys {
      assert Replay(before, changes).Keys == after.Keys;
      if changes == map[] {
        forall k | k in after ensures k in before && before[k] == after[k] {
          assert k !in changes;
        }
        assert before.Keys == after.Keys;
      }
    } else {
      var k :| k in before && k !in after;
      assert k in Replay(before, changes);
    }
  }
}
