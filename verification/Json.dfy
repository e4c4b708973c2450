/** JSON values as the programs receive them, numbers left to the client module. */
module Json {
  datatype Json<N> =
    | JUndefined
    | JNull
    | JBool(b: bool)
    | JNumber(n: N)
    | JString(s: string)
    | JArray(items: seq<Json<N>>)
    | JObject(members: seq<Member<N>>)

  datatype Member<N> = Member(key: string, value: Json<N>)

  function Keys<N>(members: seq<Member<N>>): (keys: seq<string>)
    ensures |keys| == |members|
  {
    seq(|members|, i requires 0 <= i < |members| => members[i].key)
  }

  ghost predicate DistinctKeys<N>(members: seq<Member<N>>) {
    forall i, j :: 0 <= i < j < |members| ==> members[i].key != members[j].key
  }

  /** The member with this key, if there is one. */
  function Lookup<N>(members: seq<Member<N>>, key: string): (i: int)
    ensures -1 <= i < |members|
    ensures i >= 0 ==> members[i].key == key
    ensures i < 0 ==> forall j :: 0 <= j < |members| ==> members[j].key != key
  {
    if members == [] then -1
    else if members[0].key == key then 0
    else
      var i := Lookup(members[1..], key);
      if i < 0 then -1 else i + 1
  }

  /** Objects of the runtime never repeat a key. */
  ghost predicate WellFormed<N>(v: Json<N>) {
    match v
    case JArray(items) => forall i :: 0 <= i < |items| ==> WellFormed(items[i])
    case JObject(members) => DistinctKeys(members) && forall i :: 0 <= i < |members| ==> WellFormed(members[i].value)
    case _ => true
  }

  /** Equality up to the order of object members. */
  ghost predicate Equivalent<N>(a: Json<N>, b: Json<N>) {
    match (a, b)
    case (JArray(xs), JArray(ys)) => |xs| == |ys| && forall i :: 0 <= i < |xs| ==> Equivalent(xs[i], ys[i])
    case (JObject(ms), JObject(ns)) =>
      |ms| == |ns| && forall m :: m in ms ==> exists n :: n in ns && n.key == m.key && Equivalent(m.value, n.value)
    case _ => a == b
  }

  // ----- Keys -----

  lemma KeyOwner<N>(ms: seq<Member<N>>, k: string)
    ensures k in Keys(ms) <==> exists m :: m in ms && m.key == k
  {
    if k in Keys(ms) {
      var i :| 0 <= i < |ms| && Keys(ms)[i] == k;
      assert ms[i] in ms;
    }
    if exists m :: m in ms && m.key == k {
      var m :| m in ms && m.key == k;
      var i :| 0 <= i < |ms| && ms[i] == m;
      assert Keys(ms)[i] == k;
    }
  }

  /** Equal numbers of distinct keys, one set inside the other: the sets are the same. */
  lemma KeySetsAgree<N>(ms: seq<Member<N>>, ns: seq<Member<N>>)
    requires DistinctKeys(ms) && DistinctKeys(ns) && |ms| == |ns|
    requires forall k :: k in Keys(ms) ==> k in Keys(ns)
    ensures forall k :: k in Keys(ms) <==> k in Keys(ns)
  {
    var a, b := set k | k in Keys(ms), set k | k in Keys(ns);
    DistinctCount(Keys(ms));
    DistinctCount(Keys(ns));
    assert a <= b;
    SubsetOfSameSize(a, b);
    assert forall k :: k in Keys(ns) ==> k in b;
  }

  lemma {:induction false} DistinctCount(keys: seq<string>)
    requires forall i, j :: 0 <= i < j < |keys| ==> keys[i] != keys[j]
    ensures |set k | k in keys| == |keys|
  {
    if keys != [] {
      DistinctCount(keys[1..]);
      assert (set k | k in keys) == {keys[0]} + set k | k in keys[1..];
    }
  }

  lemma SubsetOfSameSize(a: set<string>, b: set<string>)
    requires a <= b && |a| == |b|
    ensures a == b
  {
    assert |b - a| == |b| - |a|;
  }

  lemma MemberByKey<N>(ns: seq<Member<N>>, x: Member<N>, y: Member<N>)
    requires DistinctKeys(ns) && x in ns && y in ns && x.key == y.key
    ensures x == y
  {
  }

  /** Between well-formed values the relation is symmetric: every member is somebody's partner. */
  lemma {:induction false} EquivalentSymmetric<N>(a: Json<N>, b: Json<N>)
    requires Equivalent(a, b) && WellFormed(a) && WellFormed(b)
    ensures Equivalent(b, a)
    decreases a
  {
    match (a, b)
    case (JArray(xs), JArray(ys)) =>
      forall i | 0 <= i < |xs| ensures Equivalent(ys[i], xs[i]) {
        EquivalentSymmetric(xs[i], ys[i]);
      }
    case (JObject(ms), JObject(ns)) =>
      forall n | n in ns ensures exists m :: m in ms && m.key == n.key && Equivalent(n.value, m.value) {
        var i := PartnerBefore(ms, ns, n);
        EquivalentSymmetric(ms[i].value, n.value);
      }
    case _ =>
  }

  lemma PartnersShareKeys<N>(ms: seq<Member<N>>, ns: seq<Member<N>>)
    requires Equivalent(JObject(ms), JObject(ns)) && DistinctKeys(ms) && DistinctKeys(ns)
    ensures forall k :: k in Keys(ms) <==> k in Keys(ns)
  {
    forall k | k in Keys(ms) ensures k in Keys(ns) {
      KeyOwner(ms, k);
      KeyOwner(ns, k);
    }
    KeySetsAgree(ms, ns);
  }

  lemma PartnerBefore<N>(ms: seq<Member<N>>, ns: seq<Member<N>>, n: Member<N>) returns (i: nat)
    requires Equivalent(JObject(ms), JObject(ns)) && DistinctKeys(ms) && WellFormed(JObject(ns)) && n in ns
    ensures i < |ms| && ms[i].key == n.key && Equivalent(ms[i].value, n.value) && WellFormed(n.value)
  {
    PartnersShareKeys(ms, ns);
    KeyOwner(ns, n.key);
    KeyOwner(ms, n.key);
    var m :| m in ms && m.key == n.key;
    i :| 0 <= i < |ms| && ms[i] == m;
    var partner :| partner in ns && partner.key == m.key && Equivalent(m.value, partner.value);
    MemberByKey(ns, partner, n);
    var j :| 0 <= j < |ns| && ns[j] == n;
  }
}
