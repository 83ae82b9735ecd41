/** How the unique blocks are shared out among the 100 content models. */
module Allotment {
  import opened Basics

  const NR_MODELS := 100

  function Prefix(v: seq<nat>, k: nat): nat
    requires k <= |v|
  {
    if k == 0 then 0 else Prefix(v, k - 1) + v[k - 1]
  }

  lemma {:induction false} PrefixGrows(v: seq<nat>, i: nat, j: nat)
    requires i <= j <= |v|
    ensures Prefix(v, i) <= Prefix(v, j)
    decreases j
  {
    if i >= j {
    } else {
      PrefixGrows(v, i, j - 1);
    }
  }

  lemma {:induction false} PrefixAppend(v: seq<nat>, x: nat, k: nat)
    requires k <= |v|
    ensures Prefix(v + [x], k) == Prefix(v, k)
    ensures k == |v| ==> Prefix(v + [x], k + 1) == Prefix(v, k) + x
  {
    if k == 0 {
    } else {
      PrefixAppend(v, x, k - 1);
    }
  }

  /** One push_back loop of loadModels. */
  method PushBack(v: seq<nat>, times: nat, x: nat) returns (v': seq<nat>)
    ensures |v'| == |v| + times && v' == v + v'[|v|..]
    ensures forall j :: |v| <= j < |v'| ==> v'[j] == x
    ensures Prefix(v', |v'|) == Prefix(v, |v|) + times * x
  {
    v' := v;
    for i := 0 to times
      invariant |v'| == |v| + i && v' == v + v'[|v|..]
      invariant forall j :: |v| <= j < |v'| ==> v'[j] == x
      invariant Prefix(v', |v'|) == Prefix(v, |v|) + i * x
    {
      PrefixAppend(v', x, |v'|);
      assert (i + 1) * x == i * x + x;
      v' := v' + [x];
    }
  }

  /** loadModels shares out bu blocks, the first model getting x of them. The source computes x as
    * sqrt(p) * bu; any first share is allowed here. */
  method Allot(bu: nat, x: nat) returns (v: seq<nat>)
    requires x <= bu
    ensures |v| == NR_MODELS == 100 && v[0] == x && Prefix(v, NR_MODELS) == bu
    ensures forall i, j :: 1 <= i < NR_MODELS && 1 <= j < NR_MODELS ==> v[i] <= v[j] + 1
  {
    hide Prefix;
    var r := bu - x;
    var y, z := r / (NR_MODELS - 1), r % (NR_MODELS - 1);
    var w := NR_MODELS - 1 - z;
    NothingAllotted();
    v := PushBack([], 1, x);
    assert v[0] == x;
    v := PushBack(v, w, y);
    assert v[0] == x && forall j :: 1 <= j < |v| ==> v[j] == y;
    v := PushBack(v, z, y + 1);
    SharesAddUp(r, y, z);
    assert v[0] == x && forall j :: 1 <= j < |v| ==> y <= v[j] <= y + 1;
  }

  lemma NothingAllotted()
    ensures Prefix([], 0) == 0
  {}

  lemma SharesAddUp(r: nat, y: nat, z: nat)
    requires y == r / (NR_MODELS - 1) && z == r % (NR_MODELS - 1)
    ensures (NR_MODELS - 1 - z) * y + z * (y + 1) == r
  {
    assert (NR_MODELS - 1 - z) * y + z * y == (NR_MODELS - 1) * y;
    assert z * (y + 1) == z * y + z;
  }

  predicate Reaches(v: seq<nat>, id: nat, k: nat)
    requires k < |v|
  {
    id <= Prefix(v, k + 1)
  }

  /** The model of a block: the first whose running sum reaches the id. */
  function ModelFrom(v: seq<nat>, id: nat, k: nat): (m: nat)
    requires k < |v| && id <= Prefix(v, |v|)
    ensures k <= m < |v| && Reaches(v, id, m)
    ensures forall j :: k <= j < m ==> !Reaches(v, id, j)
    decreases |v| - k
  {
    if Reaches(v, id, k) || k == |v| - 1 then k else ModelFrom(v, id, k + 1)
  }

  function ModelOf(v: seq<nat>, id: nat): (m: nat)
    requires 0 < |v| && id <= Prefix(v, |v|)
    ensures m < |v|
  {
    ModelFrom(v, id, 0)
  }

  /** The search loop of get_model_by_id_and_compression. None is the out_of_range exception of at():
    * it is thrown exactly for ids above the number of unique blocks. */
  method FindModel(v: seq<nat>, id: nat) returns (m: Option<nat>)
    requires 0 < |v|
    ensures m == if id <= Prefix(v, |v|) then Some(ModelOf(v, id)) else None
  {
    var indice := 0;
    var somatorio := v[0];
    while id > somatorio && indice < |v|
      invariant 0 <= indice < |v| && somatorio == Prefix(v, indice + 1)
      invariant id <= Prefix(v, |v|) ==> ModelOf(v, id) == ModelFrom(v, id, indice)
      decreases |v| - indice
    {
      PrefixGrows(v, indice + 1, |v|);
      indice := indice + 1;
      if indice >= |v| {
        return None;
      }
      somatorio := somatorio + v[indice];
    }
    PrefixGrows(v, indice + 1, |v|);
    m := Some(indice);
  }

  /** The ids of model k are the stretch of v[k] ids that follows the ids of the models before it. */
  lemma ModelInterval(v: seq<nat>, id: nat, k: nat)
    requires k < |v| && 1 <= id <= Prefix(v, |v|)
    ensures ModelOf(v, id) == k <==> Prefix(v, k) < id <= Prefix(v, k + 1)
  {
    var m := ModelOf(v, id);
    if k < m {
      assert !Reaches(v, id, k);
    } else if m < k {
      PrefixGrows(v, m + 1, k);
    } else if k > 0 {
      assert !Reaches(v, id, k - 1);
    }
  }

  /** The ids 1 .. Prefix(v, |v|) that use model k. */
  function IdsOf(v: seq<nat>, k: nat): (ids: set<nat>)
    requires 0 < |v|
    ensures forall id :: id in ids <==> 1 <= id <= Prefix(v, |v|) && ModelOf(v, id) == k
  {
    set id | id in Interval(0, Prefix(v, |v|)) && ModelOf(v, id) == k
  }

  /** The ids lo + 1 .. hi. */
  function Interval(lo: nat, hi: nat): (ids: set<nat>)
    requires lo <= hi
    ensures |ids| == hi - lo && forall id :: id in ids <==> lo < id <= hi
    decreases hi - lo
  {
    if lo == hi then {} else Interval(lo, hi - 1) + {hi}
  }

  /** Exactly v[k] of the ids 1 .. Prefix(v, |v|) use model k. */
  lemma ModelsGetTheirShare(v: seq<nat>, k: nat)
    requires k < |v|
    ensures |IdsOf(v, k)| == v[k]
  {
    PrefixGrows(v, k + 1, |v|);
    var s := Interval(Prefix(v, k), Prefix(v, k + 1));
    forall id: nat ensures id in IdsOf(v, k) <==> id in s {
      if 1 <= id <= Prefix(v, |v|) {
        ModelInterval(v, id, k);
      }
    }
    assert IdsOf(v, k) == s;
  }
}
