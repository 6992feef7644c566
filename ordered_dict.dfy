/** The accumulator object `{}` that `groupExactValues` folds into (src/App.js:27-32):
    a string-keyed dictionary that remembers the order in which keys were first set,
    as a JavaScript object does for keys that are not integer-like. */
module OrderedDict {
  import opened Records

  class Dict {
    /** Keys in insertion order. */
    var order: seq<string>
    /** The value stored under each key. */
    var vals: map<string, int>

    ghost predicate Valid()
      reads this
    {
      && (forall i, j :: 0 <= i < j < |order| ==> order[i] != order[j])
      && (forall k :: k in vals <==> k in order)
    }

    /** The empty object literal `{}`. */
    constructor ()
      ensures Valid()
      ensures order == [] && vals == map[]
    {
      order := [];
      vals := map[];
    }

    /** `prev[k]`: the stored value, or None where JavaScript yields `undefined`. */
    function Get(k: string): (r: Option<int>)
      reads this
      requires Valid()
      ensures r.Some? <==> k in order
      ensures r.Some? ==> k in vals && r.value == vals[k]
    {
      if k in vals then Some(vals[k]) else None
    }

    /** `Object.assign(prev, {[k]: v})`: an existing key is overwritten where it stands,
        a new key is appended after all others. */
    method Assign(k: string, v: int)
      requires Valid()
      modifies this
      ensures Valid()
      ensures order == if k in old(order) then old(order) else old(order) + [k]
      ensures vals == old(vals)[k := v]
    {
      if k !in vals {
        order := order + [k];
      }
      vals := vals[k := v];
    }

    /** `Object.entries(prev).map(([k, v]) => ({[key]: k, y: v}))`: one point per key, in insertion order. */
    function Entries(): (r: seq<Record>)
      reads this
      requires Valid()
      ensures Keys(r) == order
      ensures forall i :: 0 <= i < |r| ==> r[i].y == vals[order[i]]
    {
      var o, m := order, vals;
      seq(|o|, i requires 0 <= i < |o| && o[i] in m => Record(o[i], m[o[i]]))
    }
  }
}
