/**
 * The deep merge as it happens in memory: dictionaries are objects, the merge changes
 * them in place, and a shallow copy shares everything below its first level.
 */
module ConfigHeap {
  import opened ConfigTree

  // A dictionary entry: a nested dictionary by reference, or a value that is never changed.
  datatype Item = Leaf(value: Value) | Ref(dict: PyDict)

  class PyDict {
    var entries: map<string, Item>
    ghost var Repr: set<PyDict>

    // Nested dictionaries have disjoint footprints: the configuration is a tree.
    ghost predicate Valid()
      reads this, Repr
      decreases Repr
    {
      && this in Repr
      && (forall k :: k in entries && entries[k].Ref? ==>
          && entries[k].dict in Repr && entries[k].dict.Repr <= Repr
          && this !in entries[k].dict.Repr && entries[k].dict.Valid())
      && (forall k :: k in entries && entries[k].Leaf? ==> !entries[k].value.Dict?)
      && (forall j, k :: j in entries && k in entries && j != k && entries[j].Ref? && entries[k].Ref? ==>
          entries[j].dict.Repr !! entries[k].dict.Repr)
    }

    // The value tree this dictionary stands for.
    function Tree(): Entries
      requires Valid()
      reads this, Repr
      decreases Repr
    {
      map k | k in entries ::
        match entries[k]
        case Leaf(v) => v
        case Ref(d) => Dict(d.Tree())
    }

    constructor Empty()
      ensures Valid() && fresh(Repr) && entries == map[] && Tree() == map[]
    {
      entries := map[];
      Repr := {this};
    }

    static function ItemTree(item: Item): Value
      requires item.Ref? ==> item.dict.Valid()
      reads if item.Ref? then {item.dict} + item.dict.Repr else {}
    {
      match item
      case Leaf(v) => v
      case Ref(d) => Dict(d.Tree())
    }

    // Nested dictionaries other than those under k are as they were.
    twostate lemma SiblingsKept(k: string, new changed: set<PyDict>)
      requires old(Valid())
      requires forall o :: o in old(Repr) && o !in changed && o != this ==> unchanged(o)
      requires changed <= (if k in old(entries) && old(entries[k]).Ref? then old(entries[k].dict.Repr) else {})
      ensures forall j :: j in old(entries) && j != k && old(entries[j]).Ref? ==>
        var d := old(entries[j]).dict;
        d.Valid() && d.Tree() == old(d.Tree()) && d.Repr == old(d.Repr)
    {
      forall j | j in old(entries) && j != k && old(entries[j]).Ref?
        ensures var d := old(entries[j]).dict;
                d.Valid() && d.Tree() == old(d.Tree()) && d.Repr == old(d.Repr)
      {
        var d := old(entries[j]).dict;
        assert old(d.Repr) !! changed;
        assert forall o :: o in old(d.Repr) ==> unchanged(o);
      }
    }

    // With its siblings kept, this dictionary holds the new item under k.
    twostate lemma EntryReplaced(k: string, new item: Item)
      requires old(Valid())
      requires entries == old(entries)[k := item]
      requires forall j :: j in old(entries) && j != k && old(entries[j]).Ref? ==>
        var d := old(entries[j]).dict;
        d.Valid() && d.Tree() == old(d.Tree()) && d.Repr == old(d.Repr)
      requires item.Leaf? ==> !item.value.Dict? && Repr == old(Repr)
      requires item.Ref? ==> item.dict.Valid() && Repr == old(Repr) + item.dict.Repr && this !in item.dict.Repr
      requires item.Ref? ==> forall o :: o in item.dict.Repr && o in old(Repr) ==>
        k in old(entries) && old(entries[k]).Ref? && o in old(entries[k].dict.Repr)
      ensures Valid()
      ensures Tree() == old(Tree())[k := ItemTree(item)]
    {
    }

    // dict(d): a new dictionary with the same entries, nested ones shared.
    constructor ShallowCopy(d: PyDict)
      requires d.Valid()
      ensures Valid() && fresh(this) && entries == d.entries && Repr == d.Repr - {d} + {this}
      ensures Tree() == d.Tree()
    {
      entries := d.entries;
      Repr := d.Repr - {d} + {this};
    }

    // The nested objects that merging value under k may change.
    ghost function MergeFootprint(k: string, value: Value): set<PyDict>
      requires Valid()
      reads this, Repr
    {
      if k in entries && entries[k].Ref? && IsMapping(value) then entries[k].dict.Repr else {}
    }

    // One key of the update. An existing dictionary is merged into where it is.
    method MergeKey(k: string, value: Value)
      requires Valid()
      modifies Repr
      ensures Valid() && fresh(Repr - old(Repr))
      ensures Tree() == old(Tree())[k := MergedValue(old(Tree()), k, value)]
      ensures forall j :: j in old(entries) && j != k ==> j in entries && entries[j] == old(entries[j])
      ensures k in old(entries) && old(entries[k]).Ref? && IsMapping(value) ==> k in entries && entries[k] == old(entries[k])
      ensures forall o :: o in old(Repr) && o != this && o !in old(MergeFootprint(k, value)) ==> unchanged(o)
      decreases value, 2
    {
      if k in entries && entries[k].Ref? && IsMapping(value) {
        MergeIntoChild(k, value);
      } else {
        if value.Dict? {
          var child := NewDict(value);
          SetDict(k, child);
        } else {
          SetLeaf(k, value);
        }
      }
    }

    // A dictionary of the update, built afresh.
    static method NewDict(value: Value) returns (child: PyDict)
      requires value.Dict?
      ensures child.Valid() && fresh(child.Repr) && child.Tree() == value.entries
      decreases value, 1
    {
      child := new PyDict.Empty();
      child.DeepMerge(value);
      MergeIntoEmpty(value);
    }

    method SetDict(k: string, child: PyDict)
      requires Valid() && child.Valid() && child.Repr !! Repr
      modifies this
      ensures Valid() && Tree() == old(Tree())[k := Dict(old(child.Tree()))]
      ensures entries == old(entries)[k := Ref(child)] && Repr == old(Repr) + old(child.Repr)
    {
      entries := entries[k := Ref(child)];
      Repr := Repr + child.Repr;
      SiblingsKept(k, {});
      EntryReplaced(k, Ref(child));
    }

    method SetLeaf(k: string, value: Value)
      requires Valid() && !value.Dict?
      modifies this
      ensures Valid() && Tree() == old(Tree())[k := value]
      ensures entries == old(entries)[k := Leaf(value)] && Repr == old(Repr)
    {
      entries := entries[k := Leaf(value)];
      SiblingsKept(k, {});
      EntryReplaced(k, Leaf(value));
    }

    method MergeIntoChild(k: string, value: Value)
      requires Valid() && k in entries && entries[k].Ref? && IsMapping(value)
      modifies this, entries[k].dict.Repr
      ensures Valid() && fresh(Repr - old(Repr)) && entries == old(entries)
      ensures Tree() == old(Tree())[k := Dict(Merge(old(entries[k].dict.Tree()), value))]
      decreases value, 1
    {
      var child := entries[k].dict;
      ghost var changed := child.Repr;
      child.DeepMerge(value);
      Repr := Repr + child.Repr;
      SiblingsKept(k, changed);
      EntryReplaced(k, Ref(child));
    }

    // Where the merge stands with the keys of todo still to come. The objects of snapshot[j]
    // belong to the dictionary that was under j at the start.
    ghost predicate MergedUpTo(before: Entries, oldEntries: map<string, Item>, snapshot: map<string, map<PyDict, Fields>>,
                               source: Value, todo: set<string>)
      requires IsMapping(source)
      reads this, Repr, set j, o | j in snapshot && o in snapshot[j] :: o
    {
      && todo <= source.entries.Keys && before.Keys == oldEntries.Keys
      && Valid() && Tree() == MergedExcept(before, source, todo)
      && (forall j :: j in oldEntries && (j in todo || KeepsObject(oldEntries[j], source, j)) ==>
          j in entries && entries[j] == oldEntries[j])
      && (forall j :: j in snapshot <==> j in oldEntries && oldEntries[j].Ref?)
      && (forall j :: j in snapshot ==> this !in snapshot[j] && oldEntries[j].dict in snapshot[j])
      && (forall j :: j in snapshot ==> snapshot[j][oldEntries[j].dict].repr == snapshot[j].Keys)
      && (forall i, j :: i in snapshot && j in snapshot && i != j ==> snapshot[i].Keys !! snapshot[j].Keys)
      && (forall j :: j in snapshot && (j in todo || !MergesUnder(source, j)) ==> AsRecorded(snapshot[j]))
    }

    // The nested dictionaries, with the fields of every object they consist of.
    ghost function Snapshot(): map<string, map<PyDict, Fields>>
      requires Valid()
      reads this, Repr
    {
      map j | j in entries && entries[j].Ref? :: Record(entries[j].dict.Repr)
    }

    lemma NothingMergedYet(source: Value)
      requires Valid() && IsMapping(source)
      ensures MergedUpTo(Tree(), entries, Snapshot(), source, source.entries.Keys)
    {
      AllMerged(Tree(), source);
    }

    // What merging one more key can change was recorded under that key.
    lemma FootprintRecorded(before: Entries, oldEntries: map<string, Item>, snapshot: map<string, map<PyDict, Fields>>,
                            source: Value, todo: set<string>, key: string)
      requires IsMapping(source) && key in todo
      requires MergedUpTo(before, oldEntries, snapshot, source, todo)
      ensures key in entries <==> key in Tree()
      ensures MergeFootprint(key, source.entries[key]) <= (if key in snapshot then snapshot[key].Keys else {})
    {
    }

    method MergeNext(source: Value, key: string, ghost before: Entries, ghost oldEntries: map<string, Item>,
                     ghost snapshot: map<string, map<PyDict, Fields>>, ghost todo: set<string>)
      requires IsMapping(source) && key in todo
      requires MergedUpTo(before, oldEntries, snapshot, source, todo)
      modifies Repr
      ensures MergedUpTo(before, oldEntries, snapshot, source, todo - {key})
      ensures fresh(Repr - old(Repr))
      decreases source, 0, 0
    {
      FootprintRecorded(before, oldEntries, snapshot, source, todo, key);
      MergeKey(key, source.entries[key]);
      MergedOneMore(before, source, todo, key);
      forall j | j in snapshot && ((j in todo && j != key) || !MergesUnder(source, j))
        ensures AsRecorded(snapshot[j])
      {
        assert old(AsRecorded(snapshot[j]));
        assert j != key && key in snapshot ==> snapshot[j].Keys !! snapshot[key].Keys;
      }
    }

    // Merges the update into this dictionary, keys in any order.
    method DeepMerge(source: Value)
      requires Valid() && IsMapping(source)
      modifies Repr
      ensures Valid() && fresh(Repr - old(Repr))
      ensures Tree() == Merge(old(Tree()), source)
      ensures forall j :: j in old(entries) && KeepsObject(old(entries[j]), source, j) ==> j in entries && entries[j] == old(entries[j])
      ensures forall j :: j in old(Snapshot()) && !MergesUnder(source, j) ==> AsRecorded(old(Snapshot())[j])
      decreases source, 0
    {
      ghost var before := Tree();
      ghost var oldEntries := entries;
      ghost var snapshot := Snapshot();
      var todo := source.entries.Keys;
      NothingMergedYet(source);
      while todo != {}
        invariant MergedUpTo(before, oldEntries, snapshot, source, todo)
        invariant fresh(Repr - old(Repr))
        decreases todo
      {
        var key :| key in todo;
        MergeNext(source, key, before, oldEntries, snapshot, todo);
        todo := todo - {key};
      }
      AllMerged(before, source);
    }
  }

  datatype Fields = Fields(entries: map<string, Item>, repr: set<PyDict>)

  ghost function Record(objects: set<PyDict>): map<PyDict, Fields>
    reads objects
  {
    map o | o in objects :: Fields(o.entries, o.Repr)
  }

  ghost predicate AsRecorded(record: map<PyDict, Fields>)
    reads record.Keys
  {
    forall o :: o in record ==> o.entries == record[o].entries && o.Repr == record[o].repr
  }

  // The update leaves the item alone, or merges into the dictionary object it refers to.
  predicate KeepsObject(item: Item, source: Value, k: string)
    requires IsMapping(source)
  {
    k !in source.entries || (item.Ref? && IsMapping(source.entries[k]))
  }

  function MergedValue(target: Entries, k: string, value: Value): Value {
    if k in target && target[k].Dict? && IsMapping(value) then Dict(Merge(target[k].entries, value)) else value
  }

  lemma MergeIntoEmpty(value: Value)
    requires IsMapping(value)
    ensures Merge(map[], value) == value.entries
  {
  }

  // The merge with the keys of todo still to come.
  ghost function MergedExcept(before: Entries, source: Value, todo: set<string>): Entries
    requires IsMapping(source)
  {
    map k | k in before.Keys + (source.entries.Keys - todo) ::
      if k in source.entries && k !in todo then MergedValue(before, k, source.entries[k]) else before[k]
  }

  predicate MergesUnder(source: Value, k: string)
    requires IsMapping(source)
  {
    k in source.entries && IsMapping(source.entries[k])
  }

  lemma MergedOneMore(before: Entries, source: Value, todo: set<string>, key: string)
    requires IsMapping(source) && key in todo && todo <= source.entries.Keys
    ensures MergedExcept(before, source, todo - {key}) ==
      MergedExcept(before, source, todo)[key := MergedValue(MergedExcept(before, source, todo), key, source.entries[key])]
  {
  }

  lemma AllMerged(before: Entries, source: Value)
    requires IsMapping(source)
    ensures MergedExcept(before, source, {}) == Merge(before, source)
    ensures MergedExcept(before, source, source.entries.Keys) == before
  {
  }
}
