/** What one update does to the loaded configuration object, and what it reports. */
module ConfigUpdate {
  import opened ConfigTree
  import opened ConfigHeap
  import opened Wrappers

  ghost predicate ItemsValid(items: map<string, Item>)
    reads set k | k in items && items[k].Ref? :: items[k].dict
    reads set k, o | k in items && items[k].Ref? && o in items[k].dict.Repr :: o
  {
    forall k :: k in items && items[k].Ref? ==> items[k].dict.Valid()
  }

  // What the entries of a dictionary show when they are read now.
  function View(items: map<string, Item>): Entries
    requires ItemsValid(items)
    reads set k | k in items && items[k].Ref? :: items[k].dict
    reads set k, o | k in items && items[k].Ref? && o in items[k].dict.Repr :: o
  {
    map k | k in items :: PyDict.ItemTree(items[k])
  }

  // A shallow copy after the merge: nested dictionaries that were merged into show the update.
  function SharedView(before: Entries, source: Value): Entries
    requires IsMapping(source)
  {
    map k | k in before ::
      if Merges(before, source.entries, k) then Dict(Merge(before[k].entries, source.entries[k])) else before[k]
  }

  // Merging into a shallow copy gives the merged configuration, but also changes what the
  // original, and every other shallow copy of it, shows.
  method MergeIntoCopy(loaded: PyDict, source: Value) returns (merged: PyDict)
    requires loaded.Valid() && IsMapping(source)
    modifies loaded.Repr - {loaded}
    ensures merged.Valid() && merged.Tree() == Merge(old(loaded.Tree()), source)
    ensures ItemsValid(loaded.entries) && View(loaded.entries) == SharedView(old(loaded.Tree()), source)
    ensures fresh(merged.Repr - old(loaded.Repr))
  {
    merged := new PyDict.ShallowCopy(loaded);
    ghost var before := merged.Tree();
    label Merging:
    merged.DeepMerge(source);
    forall k | k in loaded.entries
      ensures loaded.entries[k].Ref? ==> loaded.entries[k].dict.Valid()
      ensures PyDict.ItemTree(loaded.entries[k]) == SharedView(before, source)[k]
    {
      SharedEntry@Merging(merged, source, k);
    }
  }

  // One entry of a shallow copy, after the merge.
  twostate lemma SharedEntry(merged: PyDict, new source: Value, new k: string)
    requires old(merged.Valid()) && merged.Valid() && IsMapping(source) && k in old(merged.entries)
    requires merged.Tree() == Merge(old(merged.Tree()), source)
    requires KeepsObject(old(merged.entries[k]), source, k) ==>
      k in merged.entries && merged.entries[k] == old(merged.entries[k])
    requires k in old(merged.Snapshot()) && !MergesUnder(source, k) ==> AsRecorded(old(merged.Snapshot())[k])
    ensures old(merged.entries[k]).Ref? ==> old(merged.entries[k]).dict.Valid()
    ensures PyDict.ItemTree(old(merged.entries[k])) == SharedView(old(merged.Tree()), source)[k]
  {
    var item := old(merged.entries[k]);
    if KeepsObject(item, source, k) {
      assert merged.Tree()[k] == PyDict.ItemTree(merged.entries[k]);
    } else if item.Ref? {
      DetachedAsBefore(item.dict);
    }
  }

  // A dictionary none of whose objects changed shows what it showed.
  twostate lemma {:induction false} DetachedAsBefore(d: PyDict)
    requires old(d.Valid())
    requires forall o :: o in old(d.Repr) ==> o.entries == old(o.entries) && o.Repr == old(o.Repr)
    ensures d.Valid() && d.Tree() == old(d.Tree())
    decreases old(d.Repr)
  {
    forall k | k in d.entries && d.entries[k].Ref?
      ensures d.entries[k].dict.Valid() && d.entries[k].dict.Tree() == old(d.entries[k].dict.Tree())
    {
      DetachedAsBefore(d.entries[k].dict);
    }
  }

  // ---- The report ------------------------------------------------------------------

  // Some key of the update is new to the dictionary, or replaces a different value outright.
  ghost predicate TopLevelChange(before: Entries, source: Entries) {
    exists k :: k in source && !Merges(before, source, k) && (k !in before || Plain(before[k]) != Plain(source[k]))
  }

  // The section differs from what it was, compared as the source compares.
  ghost predicate Differs(before: Entries, source: Value)
    requires IsMapping(source)
  {
    PlainEntries(before) != PlainEntries(Merge(before, source))
  }

  // A change is seen by the report exactly when it shows at the top level of the section.
  lemma ReportedIffTopLevel(before: Entries, source: Value)
    requires IsMapping(source)
    ensures PlainEntries(SharedView(before, source)) != PlainEntries(Merge(before, source)) <==>
            TopLevelChange(before, source.entries)
    ensures TopLevelChange(before, source.entries) ==> Differs(before, source)
  {
    var s := source.entries;
    var seen, merged := PlainEntries(SharedView(before, source)), PlainEntries(Merge(before, source));
    forall k | k in before && (k !in s || Merges(before, s, k)) ensures k in merged && seen[k] == merged[k] {
    }
    if TopLevelChange(before, s) {
      var k :| k in s && !Merges(before, s, k) && (k !in before || Plain(before[k]) != Plain(s[k]));
      assert k in merged && merged[k] == Plain(s[k]);
      assert k in before ==> k in seen && seen[k] == Plain(before[k]);
      assert k in PlainEntries(before) <==> k in before;
      assert k in before ==> PlainEntries(before)[k] == Plain(before[k]);
    } else {
      assert seen.Keys == merged.Keys by {
        assert s.Keys <= before.Keys;
      }
      assert forall k :: k in before && k in s && !Merges(before, s, k) ==> seen[k] == merged[k];
      assert forall k :: k in merged ==> seen[k] == merged[k];
    }
  }

  // So a change that stays inside a nested dictionary goes unreported.
  lemma NestedChangeIsMissed()
    ensures var before: Entries := map["python" := Dict(map["version" := Atom(1)])];
            var source := Dict(map["python" := Dict(map["version" := Atom(2)])]);
            Differs(before, source) && PlainEntries(SharedView(before, source)) == PlainEntries(Merge(before, source))
  {
    var before: Entries := map["python" := Dict(map["version" := Atom(1)])];
    var source := Dict(map["python" := Dict(map["version" := Atom(2)])]);
    ReportedIffTopLevel(before, source);
    var inner := Merge(before["python"].entries, source.entries["python"]);
    assert inner["version"] == Atom(2);
    assert Merge(before, source)["python"] == Dict(inner);
    assert Plain(Dict(inner)).entries["version"] == Atom(2);
    assert Plain(before["python"]).entries["version"] == Atom(1);
    assert PlainEntries(before)["python"] != PlainEntries(Merge(before, source))["python"];
  }

  // ---- Stores that hand out the stored object --------------------------------------------

  // There a configuration loaded before an update shows SharedView afterwards (see MergeIntoCopy):
  // the same as before exactly when whatever the update sets inside a dictionary it merges into is
  // there already.
  lemma NestedPartSurvivesIff(before: Entries, source: Value)
    requires IsMapping(source)
    ensures SharedView(before, source) == before <==> NothingSetInside(before, source.entries)
  {
    forall k | k in before && Merges(before, source.entries, k)
      ensures SharedView(before, source)[k] == before[k] <==> AllThere(before[k].entries, source.entries[k].entries)
    {
      MergeChangesNothingIff(before[k].entries, source.entries[k]);
    }
    if SharedView(before, source) == before {
      forall path | |path| > 1 && Sets(before, source.entries, path) && Merges(before, source.entries, path[0])
        ensures At(before, path) == At(source.entries, path)
      {
        assert SharedView(before, source)[path[0]] == before[path[0]];
        assert Sets(before[path[0]].entries, source.entries[path[0]].entries, path[1..]);
      }
    }
    if NothingSetInside(before, source.entries) {
      forall k | k in before && Merges(before, source.entries, k) ensures SharedView(before, source)[k] == before[k] {
        forall path | path != [] && Sets(before[k].entries, source.entries[k].entries, path)
          ensures At(before[k].entries, path) == At(source.entries[k].entries, path)
        {
          assert ([k] + path)[1..] == path;
          assert Sets(before, source.entries, [k] + path);
        }
      }
    }
  }

  ghost predicate NothingSetInside(before: Entries, source: Entries) {
    forall path :: |path| > 1 && Sets(before, source, path) && Merges(before, source, path[0]) ==>
      At(before, path) == At(source, path)
  }

  // Saving that configuration late keeps of the update what it did inside those dictionaries, and
  // nothing else. It keeps the whole update exactly when there is no change at the top level.
  lemma LateSaveKeeps(before: Entries, source: Value, path: seq<string>)
    requires IsMapping(source) && path != []
    ensures At(SharedView(before, source), path)
            == if Merges(before, source.entries, path[0]) then At(Merge(before, source), path) else At(before, path)
    ensures PlainEntries(SharedView(before, source)) == PlainEntries(Merge(before, source))
            <==> !TopLevelChange(before, source.entries)
  {
    ReportedIffTopLevel(before, source);
    var k, seen := path[0], SharedView(before, source);
    if Merges(before, source.entries, k) {
      assert seen[k] == Merge(before, source)[k];
    } else {
      assert k in seen <==> k in before;
    }
  }

  // ---- The updates of one command ----------------------------------------------------------

  datatype Updates = Updates(techStacks: Option<Value>, testing: Option<Value>, pipelines: Option<Value>)

  // The sections that must be dictionaries are, and the pipelines are a list of named dictionaries.
  predicate WellTyped(u: Updates) {
    && (u.techStacks.Some? ==> u.techStacks.value.Dict?)
    && (u.testing.Some? ==> u.testing.value.Dict?)
    && (u.pipelines.Some? ==>
        && u.pipelines.value.List?
        && forall p :: p in u.pipelines.value.items ==> p.Dict? && "name" in p.entries)
  }

  function OrEmpty(update: Option<Value>): Value {
    if update == None then Dict(map[]) else update.value
  }

  function Sections(tech: Entries, pipelines: Value, testing: Entries): map<string, Value> {
    map["tech_stacks" := Plain(Dict(tech)), "pipelines" := Plain(pipelines), "testing" := Plain(Dict(testing))]
  }

  // A configuration holds its pipelines as a tuple, an updated one as a tuple of proxies. The old
  // value kept for the report is a list of copies.
  function Frozen(p: Value): Value {
    if p.Dict? then Proxy(p.entries) else p
  }

  function FrozenItems(items: seq<Value>): seq<Value> {
    seq(|items|, i requires 0 <= i < |items| => Frozen(items[i]))
  }

  function Copied(p: Value): Value {
    if p.Proxy? then Dict(p.entries) else p
  }

  function CopiedItems(items: seq<Value>): seq<Value> {
    seq(|items|, i requires 0 <= i < |items| => Copied(items[i]))
  }

  function NewPipelines(pipelines: seq<Value>, u: Updates): seq<Value>
    requires WellTyped(u)
  {
    if u.pipelines == None then pipelines else FrozenItems(u.pipelines.value.items)
  }

  // One section, with what its shallow copy shows afterwards.
  method MergeSection(loaded: PyDict, source: Value) returns (merged: PyDict, shown: Entries)
    requires loaded.Valid() && IsMapping(source)
    modifies loaded.Repr - {loaded}
    ensures merged.Valid() && merged.Tree() == Merge(old(loaded.Tree()), source)
    ensures fresh(merged.Repr - old(loaded.Repr))
    ensures shown == SharedView(old(loaded.Tree()), source)
  {
    merged := MergeIntoCopy(loaded, source);
    shown := View(loaded.entries);
  }

  method MergeSections(tech: PyDict, testing: PyDict, t: Value, s: Value)
      returns (newTech: PyDict, newTesting: PyDict, oldTech: Entries, oldTesting: Entries)
    requires tech.Valid() && testing.Valid() && tech.Repr !! testing.Repr && IsMapping(t) && IsMapping(s)
    modifies tech.Repr - {tech}, testing.Repr - {testing}
    ensures newTech.Valid() && newTech.Tree() == Merge(old(tech.Tree()), t)
    ensures newTesting.Valid() && newTesting.Tree() == Merge(old(testing.Tree()), s)
    ensures oldTech == SharedView(old(tech.Tree()), t) && oldTesting == SharedView(old(testing.Tree()), s)
  {
    newTech, oldTech := MergeSection(tech, t);
    assert testing.Valid() && testing.Tree() == old(testing.Tree()) && newTech.Repr !! testing.Repr;
    newTesting, oldTesting := MergeSection(testing, s);
  }

  // The new value of each section, and the report on the difference.
  datatype Outcome = Rejected | Updated(tech: Entries, pipelines: seq<Value>, testing: Entries, changes: map<string, Change<Value>>)

  function Report(tech: Entries, pipelines: seq<Value>, testing: Entries, u: Updates): Outcome
    requires WellTyped(u)
  {
    var t, s := OrEmpty(u.techStacks), OrEmpty(u.testing);
    var newTech, newPipelines, newTesting := Merge(tech, t), NewPipelines(pipelines, u), Merge(testing, s);
    Updated(newTech, newPipelines, newTesting,
            Changes(Sections(SharedView(tech, t), List(CopiedItems(pipelines)), SharedView(testing, s)),
                    Sections(newTech, Tuple(newPipelines), newTesting)))
  }

  // The sections the report names: the pipelines always, a list being compared with a tuple.
  lemma ReportedSections(tech: Entries, pipelines: seq<Value>, testing: Entries, u: Updates)
    requires WellTyped(u)
    ensures var r := Report(tech, pipelines, testing, u);
      && r.changes.Keys <= {"tech_stacks", "testing", "pipelines"}
      && ("tech_stacks" in r.changes <==> TopLevelChange(tech, OrEmpty(u.techStacks).entries))
      && ("testing" in r.changes <==> TopLevelChange(testing, OrEmpty(u.testing).entries))
      && "pipelines" in r.changes
  {
    var t, s := OrEmpty(u.techStacks), OrEmpty(u.testing);
    ReportedIffTopLevel(tech, t);
    ReportedIffTopLevel(testing, s);
    SectionChanges(SharedView(tech, t), List(CopiedItems(pipelines)), SharedView(testing, s),
                   Merge(tech, t), Tuple(NewPipelines(pipelines, u)), Merge(testing, s));
  }

  // The section is the same before and after the update, as the values it holds compare.
  ghost predicate SectionKept(tech: Entries, pipelines: seq<Value>, testing: Entries, r: Outcome, section: string)
    requires r.Updated?
  {
    if section == "tech_stacks" then PlainEntries(tech) == PlainEntries(r.tech)
    else if section == "testing" then PlainEntries(testing) == PlainEntries(r.testing)
    else PlainItems(pipelines) == PlainItems(r.pipelines)
  }

  // So the report names a section that did not change exactly when the pipelines did not.
  lemma UnchangedReportedIff(tech: Entries, pipelines: seq<Value>, testing: Entries, u: Updates)
    requires WellTyped(u)
    ensures var r := Report(tech, pipelines, testing, u);
      (exists section :: section in r.changes && SectionKept(tech, pipelines, testing, r, section))
      <==> PlainItems(pipelines) == PlainItems(r.pipelines)
  {
    var r := Report(tech, pipelines, testing, u);
    ReportedSections(tech, pipelines, testing, u);
    ReportedIffTopLevel(tech, OrEmpty(u.techStacks));
    ReportedIffTopLevel(testing, OrEmpty(u.testing));
    SectionNamesDiffer();
    if PlainItems(pipelines) == PlainItems(r.pipelines) {
      assert SectionKept(tech, pipelines, testing, r, "pipelines");
    }
  }

  // An update that asks for nothing is reported as a change of the pipelines, and of nothing else.
  lemma NoUpdateIsReported(tech: Entries, pipelines: seq<Value>, testing: Entries)
    ensures var r := Report(tech, pipelines, testing, Updates(None, None, None));
      && r.changes.Keys == {"pipelines"}
      && r.tech == tech && r.pipelines == pipelines && r.testing == testing
  {
    var u := Updates(None, None, None);
    ReportedSections(tech, pipelines, testing, u);
    assert Merge(tech, OrEmpty(None)) == tech && Merge(testing, OrEmpty(None)) == testing;
  }

  lemma SectionChanges(t1: Entries, p1: Value, s1: Entries, t2: Entries, p2: Value, s2: Entries)
    ensures var c := Changes(Sections(t1, p1, s1), Sections(t2, p2, s2));
      && ("tech_stacks" in c <==> PlainEntries(t1) != PlainEntries(t2))
      && ("testing" in c <==> PlainEntries(s1) != PlainEntries(s2))
      && ("pipelines" in c <==> Plain(p1) != Plain(p2))
  {
    SectionValues(t1, p1, s1);
    SectionValues(t2, p2, s2);
  }

  lemma SectionValues(t: Entries, p: Value, s: Entries)
    ensures var m := Sections(t, p, s);
      && "tech_stacks" in m && m["tech_stacks"] == Dict(PlainEntries(t))
      && "testing" in m && m["testing"] == Dict(PlainEntries(s))
      && "pipelines" in m && m["pipelines"] == Plain(p)
  {
    SectionNamesDiffer();
    PlainDict(t);
    PlainDict(s);
  }

  lemma SectionNamesDiffer()
    ensures "tech_stacks" != "testing" && "tech_stacks" != "pipelines" && "testing" != "pipelines"
  {
    assert |"tech_stacks"| == 11 && |"testing"| == 7 && |"pipelines"| == 9;
  }

  lemma PlainDict(m: Entries)
    ensures Plain(Dict(m)) == Dict(PlainEntries(m))
  {
  }

  function OutcomeOf(tech: Entries, pipelines: seq<Value>, testing: Entries, u: Updates): Outcome {
    if WellTyped(u) then Report(tech, pipelines, testing, u) else Rejected
  }

  // What is rejected, and what each part of the update does to its own section only.
  lemma SectionsOfOutcome(tech: Entries, pipelines: seq<Value>, testing: Entries, u: Updates)
    ensures var r := OutcomeOf(tech, pipelines, testing, u);
      && (r.Updated? <==>
            && (u.techStacks == None || u.techStacks.value.Dict?)
            && (u.testing == None || u.testing.value.Dict?)
            && (u.pipelines == None
                || (u.pipelines.value.List?
                    && forall i :: 0 <= i < |u.pipelines.value.items| ==>
                         u.pipelines.value.items[i].Dict? && "name" in u.pipelines.value.items[i].entries)))
      && (r.Updated? ==>
            && (u.techStacks == None ==> r.tech == tech)
            && (u.techStacks.Some? ==> r.tech == Merge(tech, u.techStacks.value))
            && (u.testing == None ==> r.testing == testing)
            && (u.testing.Some? ==> r.testing == Merge(testing, u.testing.value)))
  {
    var r := OutcomeOf(tech, pipelines, testing, u);
    if r.Rejected? && u.pipelines.Some? && u.pipelines.value.List? {
      var items := u.pipelines.value.items;
      if forall i :: 0 <= i < |items| ==> items[i].Dict? && "name" in items[i].entries {
        assert forall p :: p in items ==> p.Dict? && "name" in p.entries;
      }
    }
    assert Merge(tech, Dict(map[])) == tech && Merge(testing, Dict(map[])) == testing;
  }

  // The pipelines are those submitted, each shown through a proxy, or else those loaded.
  lemma PipelinesOfOutcome(tech: Entries, pipelines: seq<Value>, testing: Entries, u: Updates)
    requires WellTyped(u)
    ensures var r := OutcomeOf(tech, pipelines, testing, u);
      && r.Updated?
      && (u.pipelines == None ==> r.pipelines == pipelines)
      && (u.pipelines.Some? ==>
            && |r.pipelines| == |u.pipelines.value.items|
            && forall i :: 0 <= i < |r.pipelines| ==> r.pipelines[i] == Proxy(u.pipelines.value.items[i].entries))
  {
  }

  // The report has the old pipelines before, as a list, and the new ones after, as a tuple; of a
  // dictionary it shows, after the update, what a shallow copy taken before it shows then.
  lemma ReportOfOutcome(tech: Entries, pipelines: seq<Value>, testing: Entries, u: Updates)
    requires WellTyped(u)
    ensures var r := OutcomeOf(tech, pipelines, testing, u);
      && r.Updated?
      && "pipelines" in r.changes
      && r.changes["pipelines"] == Change(Some(Plain(List(pipelines))), Plain(Tuple(r.pipelines)))
      && ("tech_stacks" in r.changes ==>
            r.changes["tech_stacks"] == Change(Some(Plain(Dict(SharedView(tech, OrEmpty(u.techStacks))))), Plain(Dict(r.tech))))
      && ("testing" in r.changes ==>
            r.changes["testing"] == Change(Some(Plain(Dict(SharedView(testing, OrEmpty(u.testing))))), Plain(Dict(r.testing))))
  {
    ReportedSections(tech, pipelines, testing, u);
    CopiesLookTheSame(pipelines);
    var t, s := OrEmpty(u.techStacks), OrEmpty(u.testing);
    PlainDict(SharedView(tech, t));
    PlainDict(SharedView(testing, s));
    PlainDict(Merge(tech, t));
    PlainDict(Merge(testing, s));
    SectionValues(SharedView(tech, t), List(CopiedItems(pipelines)), SharedView(testing, s));
    SectionValues(Merge(tech, t), Tuple(NewPipelines(pipelines, u)), Merge(testing, s));
  }

  lemma CopiesLookTheSame(items: seq<Value>)
    ensures Plain(List(CopiedItems(items))) == Plain(List(items))
  {
    forall i | 0 <= i < |items| ensures Plain(CopiedItems(items)[i]) == Plain(items[i]) {
    }
    assert PlainItems(CopiedItems(items)) == PlainItems(items);
  }

  method ApplyUpdates(tech: PyDict, testing: PyDict, pipelines: seq<Value>, updates: Updates) returns (outcome: Outcome)
    requires tech.Valid() && testing.Valid() && tech.Repr !! testing.Repr
    modifies tech.Repr - {tech}, testing.Repr - {testing}
    ensures outcome == OutcomeOf(old(tech.Tree()), pipelines, old(testing.Tree()), updates)
    ensures outcome.Updated? && updates.pipelines == None ==> outcome.pipelines == pipelines
    ensures outcome.Updated? && updates.pipelines.Some? ==>
      && updates.pipelines.value.List? && |outcome.pipelines| == |updates.pipelines.value.items|
      && forall i :: 0 <= i < |outcome.pipelines| ==>
           updates.pipelines.value.items[i].Dict? && outcome.pipelines[i] == Proxy(updates.pipelines.value.items[i].entries)
    ensures outcome.Updated? ==>
      && "pipelines" in outcome.changes
      && outcome.changes["pipelines"] == Change(Some(Plain(List(pipelines))), Plain(Tuple(outcome.pipelines)))
    ensures outcome.Updated? ==>
      && outcome.tech == (if updates.techStacks == None then old(tech.Tree()) else Merge(old(tech.Tree()), updates.techStacks.value))
      && outcome.testing == (if updates.testing == None then old(testing.Tree()) else Merge(old(testing.Tree()), updates.testing.value))
  {
    ghost var techBefore, testingBefore := tech.Tree(), testing.Tree();
    SectionsOfOutcome(techBefore, pipelines, testingBefore, updates);
    if !WellTyped(updates) {
      return Rejected;
    }
    var t, s := OrEmpty(updates.techStacks), OrEmpty(updates.testing);
    var newTech, newTesting, oldTech, oldTesting := MergeSections(tech, testing, t, s);
    var newPipelines := NewPipelines(pipelines, updates);
    PipelinesOfOutcome(techBefore, pipelines, testingBefore, updates);
    ReportOfOutcome(techBefore, pipelines, testingBefore, updates);
    var techTree, testingTree := newTech.Tree(), newTesting.Tree();
    var changes := ComputeChanges(Sections(oldTech, List(CopiedItems(pipelines)), oldTesting),
                                  Sections(techTree, Tuple(newPipelines), testingTree));
    return Updated(techTree, newPipelines, testingTree, changes);
  }
}
