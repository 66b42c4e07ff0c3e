/** `UDM.Set` and `UDM.Get` on nested mutable maps: `engine/udm.go`, lines 41-76.

    Each map is an object; writing changes the maps along one path in place and creates the
    missing ones.  The methods are proved against the value functions of `Udm`. */
module UdmHeap {
  import opened Wrappers
  import opened Udm

  datatype Slot = Plain(s: string) | Nested(node: MapNode)

  class MapNode {
    var entries: map<string, Slot>
    ghost var Repr: set<object>

    constructor ()
      ensures Valid() && fresh(Repr) && View() == map[]
    {
      entries := map[];
      Repr := {this};
    }

    /** The maps below form a tree: none is shared and none contains this one. */
    ghost predicate Valid()
      reads this, Repr
      ensures Valid() ==> this in Repr
      decreases Repr
    {
      && this in Repr
      && (forall k :: k in entries && entries[k].Nested? ==>
            var c := entries[k].node;
            c in Repr && c.Repr <= Repr && this !in c.Repr && c.Valid())
      && (forall k, l :: k in entries && l in entries && k != l && entries[k].Nested? && entries[l].Nested? ==>
            entries[k].node.Repr !! entries[l].node.Repr)
    }

    /** The record as a value. */
    ghost function View(): Fields
      requires Valid()
      reads this, Repr
      decreases Repr
    {
      map k | k in entries ::
        match entries[k]
        case Plain(s) => Text(s)
        case Nested(c) => Record(c.View())
    }

    /** The map stored under a key, made afresh if there is none. */
    method Enter(k: string) returns (next: MapNode)
      requires Valid()
      modifies this
      ensures Valid() && fresh(Repr - old(Repr))
      ensures k in entries && entries[k] == Nested(next)
      ensures View() == old(View())[k := Record(Child(old(View()), k))]
      ensures next.View() == Child(old(View()), k)
    {
      if k in entries && entries[k].Nested? {
        next := entries[k].node;
        assert View() == View()[k := Record(Child(View(), k))];
      } else {
        next := Create(k);
      }
    }

    method Create(k: string) returns (next: MapNode)
      requires Valid() && (k in entries ==> entries[k].Plain?)
      modifies this
      ensures Valid() && fresh(Repr - old(Repr))
      ensures k in entries && entries[k] == Nested(next)
      ensures View() == old(View())[k := Record(map[])] && next.View() == map[]
    {
      next := new MapNode();
      entries := entries[k := Nested(next)];
      Repr := Repr + next.Repr;
      OthersKept(k);
    }

    /** Writes below the map under k, which is already there. */
    method SetBelow(k: string, keys: seq<string>, s: string)
      requires Valid() && keys != [] && k in entries && entries[k].Nested?
      modifies Repr
      ensures Valid() && fresh(Repr - old(Repr))
      ensures View() == old(View())[k := Record(SetAt(old(entries[k].node.View()), keys, s))]
      decreases |keys|, 1
    {
      var next := entries[k].node;
      next.SetKeys(keys, s);
      Repr := Repr + next.Repr;
      OthersKept(k);
    }

    /** When the maps under all other keys are untouched, only the value under k changes. */
    twostate lemma OthersKept(k: string)
      requires old(Valid()) && Valid() && k in entries
      requires forall l :: l != k ==> (l in entries <==> l in old(entries))
      requires forall l :: l in entries && l != k ==> entries[l] == old(entries[l])
      requires forall l :: l in entries && l != k && entries[l].Nested? ==> unchanged(old(entries[l].node.Repr))
      ensures k in View() && View() == old(View())[k := View()[k]]
    {
    }

    method Put(k: string, s: string)
      requires Valid()
      modifies this
      ensures Valid() && Repr == old(Repr) && View() == old(View())[k := Text(s)]
    {
      entries := entries[k := Plain(s)];
      OthersKept(k);
    }

    method SetKeys(keys: seq<string>, s: string)
      requires Valid() && keys != []
      modifies Repr
      ensures Valid() && fresh(Repr - old(Repr))
      ensures View() == SetAt(old(View()), keys, s)
      decreases |keys|, 0
    {
      if |keys| == 1 {
        Put(keys[0], s);
        return;
      }
      var _ := Enter(keys[0]);
      SetBelow(keys[0], keys[1..], s);
    }

    method Set(path: string, s: string)
      requires Valid()
      modifies Repr
      ensures Valid() && fresh(Repr - old(Repr))
      ensures View() == Udm.Set(old(View()), path, s)
    {
      if s == "" {
        return;
      }
      SetKeys(Udm.Split(path), s);
    }

    /** Follows the path with a moving cursor. */
    method Get(path: string) returns (r: Option<Slot>)
      requires Valid()
      ensures r.None? <==> Udm.Get(View(), path).None?
      ensures r.Some? ==> (match r.value
        case Plain(s) => Udm.Get(View(), path) == Some(Text(s))
        case Nested(c) => c.Valid() && Udm.Get(View(), path) == Some(Record(c.View())))
    {
      var keys := Udm.Split(path);
      var cur := Nested(this);
      for i := 0 to |keys|
        invariant cur.Nested? ==> cur.node.Valid()
        invariant i < |keys| ==> GetAt(View(), keys) == if cur.Nested? then GetAt(cur.node.View(), keys[i..]) else None
        invariant i == |keys| ==>
            GetAt(View(), keys) == Some(match cur case Plain(s) => Text(s) case Nested(c) => Record(c.View()))
      {
        if cur.Plain? || keys[i] !in cur.node.entries {
          return None;
        }
        assert keys[i..][1..] == keys[i + 1..];
        cur := cur.node.entries[keys[i]];
      }
      r := Some(cur);
    }
  }
}
