/** Hash chains: lists of named entries, each name once. */
module Chains {
  import opened Bytes

  /** A link of a hash chain. */
  datatype Entry<T> = Entry(name: string, item: T)

  /** The place of a name in a chain, or the end of the chain. */
  function PlaceOf<T>(chain: seq<Entry<T>>, name: string): (r: nat)
    ensures r <= |chain| && (r < |chain| ==> chain[r].name == name)
    ensures forall k :: 0 <= k < r ==> chain[k].name != name
  {
    if chain == [] || chain[0].name == name then 0 else 1 + PlaceOf(chain[1..], name)
  }

  function Get<T>(chain: seq<Entry<T>>, name: string): (r: Option<T>) {
    var i := PlaceOf(chain, name);
    if i < |chain| then Some(chain[i].item) else None
  }

  ghost predicate Distinct<T>(chain: seq<Entry<T>>) {
    forall i, j :: 0 <= i < j < |chain| ==> chain[i].name != chain[j].name
  }

  lemma PlaceIs<T>(chain: seq<Entry<T>>, name: string, i: nat)
    requires i <= |chain| && (i < |chain| ==> chain[i].name == name) && forall k :: 0 <= k < i ==> chain[k].name != name
    ensures PlaceOf(chain, name) == i
  {
  }

  lemma GetAt<T>(chain: seq<Entry<T>>, i: nat)
    requires Distinct(chain) && i < |chain|
    ensures PlaceOf(chain, chain[i].name) == i && Get(chain, chain[i].name) == Some(chain[i].item)
  {
    PlaceIs(chain, chain[i].name, i);
  }

  /** Writing to the entry of a name changes what is known about that name alone. */
  lemma GetStored<T>(chain: seq<Entry<T>>, i: nat, item: T, name: string)
    requires Distinct(chain) && i < |chain|
    ensures var after := chain[i := Entry(chain[i].name, item)];
            Distinct(after) && Get(after, name) == if name == chain[i].name then Some(item) else Get(chain, name)
  {
    var after := chain[i := Entry(chain[i].name, item)];
    if name == chain[i].name { GetAt(after, i); } else { PlaceIs(after, name, PlaceOf(chain, name)); }
  }

  lemma GetAdded<T>(chain: seq<Entry<T>>, e: Entry<T>, name: string)
    requires Distinct(chain) && Get(chain, e.name) == None
    ensures Distinct(chain + [e])
    ensures Get(chain + [e], name) == if name == e.name then Some(e.item) else Get(chain, name)
  {
    var after := chain + [e];
    assert forall k :: 0 <= k < |chain| ==> after[k] == chain[k];
    if name == e.name { PlaceIs(after, name, |chain|); }
    else if Get(chain, name).Some? { PlaceIs(after, name, PlaceOf(chain, name)); }
    else { PlaceIs(after, name, |after|); }
  }

  function Without<T>(chain: seq<Entry<T>>, i: nat): (r: seq<Entry<T>>)
    requires i < |chain|
  {
    chain[..i] + chain[i + 1..]
  }

  lemma GetRemoved<T>(chain: seq<Entry<T>>, i: nat, name: string)
    requires Distinct(chain) && i < |chain|
    ensures Distinct(Without(chain, i))
    ensures Get(Without(chain, i), name) == if name == chain[i].name then None else Get(chain, name)
  {
    hide Distinct;
    DistinctWithout(chain, i);
    var after := Without(chain, i);
    OnlyAt(chain, i);
    var p := PlaceOf(chain, name);
    PlaceIs(after, name, if name == chain[i].name then |after| else if p < i then p else p - 1);
  }

  lemma DistinctWithout<T>(chain: seq<Entry<T>>, i: nat)
    requires Distinct(chain) && i < |chain|
    ensures Distinct(Without(chain, i))
    ensures forall k :: 0 <= k < |Without(chain, i)| ==> Without(chain, i)[k] == chain[if k < i then k else k + 1]
  {
  }

  lemma OnlyAt<T>(chain: seq<Entry<T>>, i: nat)
    requires Distinct(chain) && i < |chain|
    ensures forall k :: 0 <= k < |chain| && k != i ==> chain[k].name != chain[i].name
  {
  }

  method FindPlace<T>(chain: seq<Entry<T>>, name: string) returns (i: nat)
    ensures i == PlaceOf(chain, name)
  {
    i := 0;
    while i < |chain| && chain[i].name != name
      invariant i <= |chain| && forall k :: 0 <= k < i ==> chain[k].name != name
    {
      i := i + 1;
    }
    PlaceIs(chain, name, i);
  }

  /** A new entry at the head. */
  lemma GetPrepended<T>(chain: seq<Entry<T>>, e: Entry<T>, name: string)
    requires Distinct(chain) && PlaceOf(chain, e.name) == |chain|
    ensures Distinct([e] + chain)
    ensures Get([e] + chain, name) == if name == e.name then Some(e.item) else Get(chain, name)
  {
    DistinctPrepended(chain, e);
    hide Distinct;
    assert ([e] + chain)[1..] == chain;
  }

  lemma DistinctPrepended<T>(chain: seq<Entry<T>>, e: Entry<T>)
    requires Distinct(chain) && PlaceOf(chain, e.name) == |chain|
    ensures Distinct([e] + chain)
  {
  }
}
