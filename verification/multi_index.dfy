/** A map from a key to the non-empty set of ids filed under it: the shape of
    the session and user indexes of the connection registries. */
module MultiIndex {
  type Index = map<string, set<string>>

  /** The ids filed under `k`; a missing key reads as the empty set. */
  function Members(ix: Index, k: string): set<string> {
    if k in ix then ix[k] else {}
  }

  ghost predicate NoEmptySets(ix: Index) {
    forall k :: k in ix ==> ix[k] != {}
  }

  /** File `v` under `k`, creating the set when the key is new. */
  function Add(ix: Index, k: string, v: string): (r: Index)
    ensures r.Keys == ix.Keys + {k}
    ensures forall j :: Members(r, j) == Members(ix, j) + (if j == k then {v} else {})
    ensures NoEmptySets(ix) ==> NoEmptySets(r)
  {
    ix[k := Members(ix, k) + {v}]
  }

  /** Take `v` out of the set under `k`, and drop the key once its set is empty. */
  function Remove(ix: Index, k: string, v: string): (r: Index)
    ensures forall j :: Members(r, j) == Members(ix, j) - (if j == k then {v} else {})
    ensures r.Keys <= ix.Keys
    ensures k in r <==> Members(ix, k) - {v} != {}
    ensures NoEmptySets(ix) ==> NoEmptySets(r)
  {
    var rest := Members(ix, k) - {v};
    if rest == {} then ix - {k} else ix[k := rest]
  }

  /** Removing what was just added restores an index where `v` was not filed under `k`. */
  lemma RemoveUndoesAdd(ix: Index, k: string, v: string)
    requires NoEmptySets(ix) && v !in Members(ix, k)
    ensures Remove(Add(ix, k, v), k, v) == ix
  {
    var r := Remove(Add(ix, k, v), k, v);
    forall j | j in r
      ensures j in ix && r[j] == ix[j]
    {
      assert Members(r, j) == Members(ix, j) - (if j == k then {v} else {}) + (if j == k then {} else {});
    }
    forall j | j in ix
      ensures j in r
    {
      assert ix[j] != {};
    }
  }

  /** A subset of a set of keys or ids is no larger than it. */
  lemma {:induction false} SubsetCardinality(a: set<string>, b: set<string>)
    requires a <= b
    ensures |a| <= |b|
  {
    if a != {} {
      var x :| x in a;
      SubsetCardinality(a - {x}, b - {x});
    }
  }
}
