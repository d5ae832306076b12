/** The collision check of scripts/apply_sales_fact_v2_cogs_identity_repair.py: rows whose candidates would
    share a unique key, and those whose new key another row has. */
module CogsCollisions {
  import opened Wrappers
  import opened CogsIdentity

  // ---------------------------------------------------------------- _resolve_unique_collisions

  datatype Key = Key(orderId: string, store: string, skuId: string, offer: string)

  function KeyOf(norm: Norm, c: Candidate): Key {
    Key(c.orderId, norm(c.storeCode), c.newSkuId, c.offer)
  }

  function Group(norm: Norm, cs: seq<Candidate>, key: Key): seq<Candidate> {
    if cs == [] then []
    else
      var init := Group(norm, cs[..|cs| - 1], key);
      if KeyOf(norm, cs[|cs| - 1]) == key then init + [cs[|cs| - 1]] else init
  }

  lemma {:induction false} GroupMembers(norm: Norm, cs: seq<Candidate>, key: Key)
    ensures forall c :: c in Group(norm, cs, key) <==> c in cs && KeyOf(norm, c) == key
  {
    if cs != [] {
      GroupMembers(norm, cs[..|cs| - 1], key);
      assert cs == cs[..|cs| - 1] + [cs[|cs| - 1]];
    }
  }

  lemma {:induction false} GroupDistinct(norm: Norm, cs: seq<Candidate>, key: Key)
    requires DistinctSales(cs)
    ensures DistinctSales(Group(norm, cs, key))
  {
    if cs != [] {
      var init := cs[..|cs| - 1];
      GroupDistinct(norm, init, key);
      GroupMembers(norm, init, key);
      forall i | 0 <= i < |Group(norm, init, key)|
        ensures Group(norm, init, key)[i].saleId != cs[|cs| - 1].saleId
      {
        assert Group(norm, init, key)[i] in init;
      }
    }
  }

  lemma GroupStep(norm: Norm, cs: seq<Candidate>, n: nat)
    requires n < |cs|
    ensures cs[..n + 1] == cs[..n] + [cs[n]]
    ensures forall k :: Group(norm, cs[..n + 1], k)
                        == if KeyOf(norm, cs[n]) == k then Group(norm, cs[..n], k) + [cs[n]]
                           else Group(norm, cs[..n], k)
  {
    assert cs[..n + 1][..n] == cs[..n];
  }

  /** The keys in the order in which they are first met. */
  function KeysOf(norm: Norm, cs: seq<Candidate>): seq<Key> {
    if cs == [] then []
    else
      var init, key := KeysOf(norm, cs[..|cs| - 1]), KeyOf(norm, cs[|cs| - 1]);
      if key in init then init else init + [key]
  }

  /** The dict after the candidates `seen`. */
  ghost predicate GroupedSoFar(norm: Norm, seen: seq<Candidate>, keys: seq<Key>, groups: map<Key, seq<Candidate>>) {
    && (forall i, j :: 0 <= i < j < |keys| ==> keys[i] != keys[j])
    && (forall c :: c in seen ==> KeyOf(norm, c) in keys)
    && (forall k :: k in keys <==> k in groups)
    && (forall k :: k in groups ==> groups[k] == Group(norm, seen, k) != [])
    && (forall k :: k !in groups ==> Group(norm, seen, k) == [])
  }

  lemma GroupedOneMore(norm: Norm, cs: seq<Candidate>, n: nat, keys: seq<Key>, groups: map<Key, seq<Candidate>>)
    requires n < |cs| && GroupedSoFar(norm, cs[..n], keys, groups)
    ensures var c, key := cs[n], KeyOf(norm, cs[n]);
            if key !in groups then GroupedSoFar(norm, cs[..n + 1], keys + [key], groups[key := [c]])
            else GroupedSoFar(norm, cs[..n + 1], keys, groups[key := groups[key] + [c]])
  {
    GroupStep(norm, cs, n);
    if KeyOf(norm, cs[n]) !in groups {
      NewGroup(norm, cs[..n], cs[..n + 1], cs[n], keys, groups);
    } else {
      LongerGroup(norm, cs[..n], cs[..n + 1], cs[n], keys, groups);
    }
  }

  ghost predicate Extends(norm: Norm, seen: seq<Candidate>, c: Candidate, now: seq<Candidate>) {
    && now == seen + [c]
    && forall k :: Group(norm, now, k)
                   == if KeyOf(norm, c) == k then Group(norm, seen, k) + [c] else Group(norm, seen, k)
  }

  lemma NewGroup(
    norm: Norm, seen: seq<Candidate>, now: seq<Candidate>, c: Candidate, keys: seq<Key>,
    groups: map<Key, seq<Candidate>>)
    requires Extends(norm, seen, c, now) && GroupedSoFar(norm, seen, keys, groups) && KeyOf(norm, c) !in groups
    ensures GroupedSoFar(norm, now, keys + [KeyOf(norm, c)], groups[KeyOf(norm, c) := [c]])
  {
  }

  lemma LongerGroup(
    norm: Norm, seen: seq<Candidate>, now: seq<Candidate>, c: Candidate, keys: seq<Key>,
    groups: map<Key, seq<Candidate>>)
    requires Extends(norm, seen, c, now) && GroupedSoFar(norm, seen, keys, groups) && KeyOf(norm, c) in groups
    ensures GroupedSoFar(norm, now, keys, groups[KeyOf(norm, c) := groups[KeyOf(norm, c)] + [c]])
  {
  }

  /** `by_unique`, a dict in insertion order: its keys, and the group under each. */
  method GroupByKey(norm: Norm, cs: seq<Candidate>) returns (keys: seq<Key>, groups: map<Key, seq<Candidate>>)
    ensures keys == KeysOf(norm, cs) && forall i, j :: 0 <= i < j < |keys| ==> keys[i] != keys[j]
    ensures forall c :: c in cs ==> KeyOf(norm, c) in keys
    ensures forall k :: k in keys ==> k in groups && groups[k] == Group(norm, cs, k) != []
  {
    keys, groups := [], map[];
    for n := 0 to |cs|
      invariant GroupedSoFar(norm, cs[..n], keys, groups) && keys == KeysOf(norm, cs[..n])
    {
      var c, key := cs[n], KeyOf(norm, cs[n]);
      assert cs[..n + 1][..n] == cs[..n];
      GroupedOneMore(norm, cs, n, keys, groups);
      if key !in groups {
        keys := keys + [key];
        groups := groups[key := [c]];
      } else {
        groups := groups[key := groups[key] + [c]];
      }
    }
    assert cs[..|cs|] == cs;
  }

  function OldSizeOf(c: Candidate): string { Or(c.oldSize, c.normOldSize) }

  /** The guard of the split: one SKU key, sizes all different, every size known for that key. */
  predicate Splittable(sizes: SizeMap, items: seq<Candidate>) {
    && (forall i, j :: 0 <= i < j < |items| ==>
         items[i].newSkuKey == items[j].newSkuKey && OldSizeOf(items[i]) != OldSizeOf(items[j]))
    && forall i :: 0 <= i < |items| ==> (items[i].newSkuKey, OldSizeOf(items[i])) in sizes
  }

  function Divide(sizes: SizeMap, c: Candidate): Candidate {
    c.(newSkuId := SkuIdFor(sizes, c.newSkuKey, OldSizeOf(c)), newSize := OldSizeOf(c), priority := 55)
  }

  function DivideAll(sizes: SizeMap, items: seq<Candidate>): (r: seq<Candidate>)
    ensures |r| == |items| && forall i :: 0 <= i < |items| ==> r[i] == Divide(sizes, items[i])
  {
    seq(|items|, i requires 0 <= i < |items| => Divide(sizes, items[i]))
  }

  function SaleIds(items: seq<Candidate>): (r: seq<int>)
    ensures |r| == |items| && forall i :: 0 <= i < |items| ==> r[i] == items[i].saleId
  {
    seq(|items|, i requires 0 <= i < |items| => items[i].saleId)
  }

  /** What one group becomes. */
  function Settled(sizes: SizeMap, items: seq<Candidate>): seq<Candidate> {
    if |items| == 1 then items else if Splittable(sizes, items) then DivideAll(sizes, items) else []
  }

  /** What the groups under `keys` become, group after group. */
  function SettleAll(norm: Norm, sizes: SizeMap, cs: seq<Candidate>, keys: seq<Key>): seq<Candidate> {
    if keys == [] then []
    else
      SettleAll(norm, sizes, cs, keys[..|keys| - 1]) + Settled(sizes, Group(norm, cs, keys[|keys| - 1]))
  }

  /** `d` is what the group of `c` made of `c`: `c` itself when alone, else its division by size. */
  ghost predicate SettledAs(norm: Norm, sizes: SizeMap, cs: seq<Candidate>, c: Candidate, d: Candidate) {
    var items := Group(norm, cs, KeyOf(norm, c));
    && c in cs
    && if |items| == 1 then d == c else Splittable(sizes, items) && d == Divide(sizes, c)
  }

  ghost predicate AllSettled(norm: Norm, sizes: SizeMap, cs: seq<Candidate>, split: seq<Candidate>) {
    && DistinctSales(split)
    && forall d :: d in split ==> exists c :: SettledAs(norm, sizes, cs, c, d)
  }

  lemma GroupSettles(norm: Norm, sizes: SizeMap, cs: seq<Candidate>, key: Key, i: nat)
    requires DistinctSales(cs)
    requires var items := Group(norm, cs, key); i < |Settled(sizes, items)|
    ensures var items := Group(norm, cs, key);
            && |Settled(sizes, items)| == |items|
            && SettledAs(norm, sizes, cs, items[i], Settled(sizes, items)[i])
            && KeyOf(norm, items[i]) == key && Settled(sizes, items)[i].saleId == items[i].saleId
  {
    GroupMembers(norm, cs, key);
    assert Group(norm, cs, key)[i] in Group(norm, cs, key);
  }

  /** The candidates of the groups under `keys` have distinct sale ids. */
  ghost predicate FromKeys(norm: Norm, cs: seq<Candidate>, keys: seq<Key>, split: seq<Candidate>) {
    forall d :: d in split ==> exists c :: c in cs && c.saleId == d.saleId && KeyOf(norm, c) in keys
  }

  /** Where the candidates of a settled group come from. */
  ghost predicate FromGroup(
    norm: Norm, sizes: SizeMap, cs: seq<Candidate>, key: Key, items: seq<Candidate>, more: seq<Candidate>)
  {
    && |more| <= |items|
    && forall i :: 0 <= i < |more| ==>
         && items[i] in cs && KeyOf(norm, items[i]) == key
         && SettledAs(norm, sizes, cs, items[i], more[i]) && more[i].saleId == items[i].saleId
  }

  lemma SettledFromGroup(norm: Norm, sizes: SizeMap, cs: seq<Candidate>, key: Key)
    requires DistinctSales(cs)
    ensures var items := Group(norm, cs, key);
            DistinctSales(items) && FromGroup(norm, sizes, cs, key, items, Settled(sizes, items))
  {
    var items := Group(norm, cs, key);
    GroupDistinct(norm, cs, key);
    GroupMembers(norm, cs, key);
    forall i | 0 <= i < |Settled(sizes, items)|
      ensures items[i] in cs && SettledAs(norm, sizes, cs, items[i], Settled(sizes, items)[i])
      ensures KeyOf(norm, items[i]) == key && Settled(sizes, items)[i].saleId == items[i].saleId
    {
      GroupSettles(norm, sizes, cs, key, i);
      assert items[i] in items;
    }
  }

  lemma SettledGroupIsNew(
    norm: Norm, sizes: SizeMap, cs: seq<Candidate>, keys: seq<Key>, split: seq<Candidate>, key: Key)
    requires DistinctSales(cs) && key !in keys
    requires AllSettled(norm, sizes, cs, split) && FromKeys(norm, cs, keys, split)
    ensures var more := Settled(sizes, Group(norm, cs, key));
            AllSettled(norm, sizes, cs, split + more) && FromKeys(norm, cs, keys + [key], split + more)
  {
    var items := Group(norm, cs, key);
    var more := Settled(sizes, items);
    SettledFromGroup(norm, sizes, cs, key);
    NewGroupDistinct(norm, sizes, cs, keys, split, key, items, more);
    forall d | d in split + more ensures exists c :: SettledAs(norm, sizes, cs, c, d) {
      if d !in split {
        var i :| 0 <= i < |more| && more[i] == d;
        assert SettledAs(norm, sizes, cs, items[i], d);
      }
    }
    NewGroupFromKeys(norm, sizes, cs, keys, split, key, items, more);
  }

  lemma NewGroupDistinct(
    norm: Norm, sizes: SizeMap, cs: seq<Candidate>, keys: seq<Key>, split: seq<Candidate>, key: Key,
    items: seq<Candidate>, more: seq<Candidate>)
    requires DistinctSales(cs) && DistinctSales(split) && DistinctSales(items) && key !in keys
    requires FromKeys(norm, cs, keys, split) && FromGroup(norm, sizes, cs, key, items, more)
    ensures DistinctSales(split + more)
  {
    forall i, j | 0 <= i < |split| && 0 <= j < |more| ensures split[i].saleId != more[j].saleId {
      assert split[i] in split;
      var c :| c in cs && c.saleId == split[i].saleId && KeyOf(norm, c) in keys;
    }
  }

  lemma NewGroupFromKeys(
    norm: Norm, sizes: SizeMap, cs: seq<Candidate>, keys: seq<Key>, split: seq<Candidate>, key: Key,
    items: seq<Candidate>, more: seq<Candidate>)
    requires FromKeys(norm, cs, keys, split) && FromGroup(norm, sizes, cs, key, items, more)
    ensures FromKeys(norm, cs, keys + [key], split + more)
  {
    forall d | d in split + more
      ensures exists c :: c in cs && c.saleId == d.saleId && KeyOf(norm, c) in keys + [key]
    {
      if d in split {
        var c :| c in cs && c.saleId == d.saleId && KeyOf(norm, c) in keys;
      } else {
        var i :| 0 <= i < |more| && more[i] == d;
        assert items[i] in cs && KeyOf(norm, items[i]) in keys + [key];
      }
    }
  }

  /** A candidate's row is there if its group settles; otherwise a collision record names it. */
  ghost predicate SettledOrNamed(
    norm: Norm, sizes: SizeMap, cs: seq<Candidate>, keys: seq<Key>, split: seq<Candidate>, xs: seq<Excluded>)
  {
    forall c :: c in cs && KeyOf(norm, c) in keys ==>
      if Settled(sizes, Group(norm, cs, KeyOf(norm, c))) == [] then Named(xs, c.saleId) else HasSale(split, c.saleId)
  }

  /** The record of a group that does not settle. */
  function Collisions(sizes: SizeMap, items: seq<Candidate>): seq<Excluded> {
    if Settled(sizes, items) == [] then [CandidateCollision(SaleIds(items))] else []
  }

  lemma GroupAccounted(
    norm: Norm, sizes: SizeMap, cs: seq<Candidate>, keys: seq<Key>, split: seq<Candidate>, xs: seq<Excluded>, key: Key)
    requires DistinctSales(cs) && SettledOrNamed(norm, sizes, cs, keys, split, xs)
    ensures var items := Group(norm, cs, key);
            SettledOrNamed(norm, sizes, cs, keys + [key], split + Settled(sizes, items), xs + Collisions(sizes, items))
  {
    var items := Group(norm, cs, key);
    var more := Settled(sizes, items);
    var records := Collisions(sizes, items);
    GroupMembers(norm, cs, key);
    forall c | c in cs && KeyOf(norm, c) in keys + [key]
      ensures if Settled(sizes, Group(norm, cs, KeyOf(norm, c))) == [] then Named(xs + records, c.saleId)
              else HasSale(split + more, c.saleId)
    {
      if KeyOf(norm, c) == key {
        GroupMemberSettles(norm, sizes, cs, key, c);
      }
      if Settled(sizes, Group(norm, cs, KeyOf(norm, c))) == [] {
        NamedIn(xs, records, c.saleId);
      } else {
        HasSaleIn(split, more, c.saleId);
      }
    }
  }

  lemma GroupMemberSettles(norm: Norm, sizes: SizeMap, cs: seq<Candidate>, key: Key, c: Candidate)
    requires DistinctSales(cs) && c in cs && KeyOf(norm, c) == key
    ensures var items := Group(norm, cs, key);
            var more := Settled(sizes, items);
            if more == [] then Named([CandidateCollision(SaleIds(items))], c.saleId) else HasSale(more, c.saleId)
  {
    var items := Group(norm, cs, key);
    var more := Settled(sizes, items);
    GroupMembers(norm, cs, key);
    var i :| 0 <= i < |items| && items[i] == c;
    if more == [] {
      var record := CandidateCollision(SaleIds(items));
      assert SaleIds(items)[i] == c.saleId;
      assert record in [record] && Names(record, c.saleId);
    } else {
      if |items| != 1 {
        assert more == DivideAll(sizes, items);
      }
      GroupSettles(norm, sizes, cs, key, i);
      assert more[i] in more;
    }
  }

  ghost predicate SettleUnder(norm: Norm, sizes: SizeMap, cs: seq<Candidate>, keys: seq<Key>) {
    forall k :: k in keys ==> Settled(sizes, Group(norm, cs, k)) != []
  }

  /** The records of the groups under `keys`. */
  function AllCollisions(norm: Norm, sizes: SizeMap, cs: seq<Candidate>, keys: seq<Key>): seq<Excluded> {
    if keys == [] then []
    else
      AllCollisions(norm, sizes, cs, keys[..|keys| - 1]) + Collisions(sizes, Group(norm, cs, keys[|keys| - 1]))
  }

  lemma FirstKeys(keys: seq<Key>, n: nat)
    requires 0 < n <= |keys|
    ensures keys[..n] == keys[..n - 1] + [keys[n - 1]] && keys[..n][..n - 1] == keys[..n - 1]
  {
  }

  lemma {:induction false} AllAreSettled(norm: Norm, sizes: SizeMap, cs: seq<Candidate>, keys: seq<Key>, n: nat)
    requires DistinctSales(cs) && n <= |keys| && forall i, j :: 0 <= i < j < |keys| ==> keys[i] != keys[j]
    ensures AllSettled(norm, sizes, cs, SettleAll(norm, sizes, cs, keys[..n]))
    ensures FromKeys(norm, cs, keys[..n], SettleAll(norm, sizes, cs, keys[..n]))
  {
    if n > 0 {
      FirstKeys(keys, n);
      AllAreSettled(norm, sizes, cs, keys, n - 1);
      SettledGroupIsNew(
        norm, sizes, cs, keys[..n - 1], SettleAll(norm, sizes, cs, keys[..n - 1]), keys[n - 1]);
    }
  }

  lemma {:induction false} AllAreNamed(norm: Norm, sizes: SizeMap, cs: seq<Candidate>, keys: seq<Key>, n: nat)
    requires DistinctSales(cs) && n <= |keys|
    ensures SettledOrNamed(norm, sizes, cs, keys[..n], SettleAll(norm, sizes, cs, keys[..n]),
                           AllCollisions(norm, sizes, cs, keys[..n]))
  {
    if n > 0 {
      FirstKeys(keys, n);
      AllAreNamed(norm, sizes, cs, keys, n - 1);
      GroupAccounted(norm, sizes, cs, keys[..n - 1], SettleAll(norm, sizes, cs, keys[..n - 1]),
                     AllCollisions(norm, sizes, cs, keys[..n - 1]), keys[n - 1]);
    }
  }

  lemma {:induction false} NoCollisionIff(norm: Norm, sizes: SizeMap, cs: seq<Candidate>, keys: seq<Key>, n: nat)
    requires n <= |keys|
    ensures AllCollisions(norm, sizes, cs, keys[..n]) == [] <==> SettleUnder(norm, sizes, cs, keys[..n])
  {
    if n > 0 {
      FirstKeys(keys, n);
      NoCollisionIff(norm, sizes, cs, keys, n - 1);
      assert forall k :: k in keys[..n] <==> k in keys[..n - 1] || k == keys[n - 1];
    }
  }

  /** The first loop of `_resolve_unique_collisions`: a candidate alone under its key is kept, the members
      of a group that divides by size are divided, and the members of any other group are named in a
      record. */
  method SplitGroups(norm: Norm, sizes: SizeMap, cs: seq<Candidate>) returns (split: seq<Candidate>, xs: seq<Excluded>)
    requires DistinctSales(cs)
    ensures split == SettleAll(norm, sizes, cs, KeysOf(norm, cs))
    ensures AllSettled(norm, sizes, cs, split)
    ensures forall c :: c in cs ==>
              if Settled(sizes, Group(norm, cs, KeyOf(norm, c))) == [] then Named(xs, c.saleId)
              else HasSale(split, c.saleId)
    ensures xs == [] <==> AllGroupsSettle(norm, sizes, cs)
  {
    var keys, groups := GroupByKey(norm, cs);
    split, xs := [], [];
    for n := 0 to |keys|
      invariant split == SettleAll(norm, sizes, cs, keys[..n]) && xs == AllCollisions(norm, sizes, cs, keys[..n])
    {
      assert keys[..n + 1][..n] == keys[..n];
      var items := groups[keys[n]];
      split, xs := split + Settled(sizes, items), xs + Collisions(sizes, items);
    }
    assert keys[..|keys|] == keys;
    AllAreSettled(norm, sizes, cs, keys, |keys|);
    AllAreNamed(norm, sizes, cs, keys, |keys|);
    NoCollisionIff(norm, sizes, cs, keys, |keys|);
    KeysSettle(norm, sizes, cs, keys);
  }

  /** Every group is one candidate or divides by size. */
  ghost predicate AllGroupsSettle(norm: Norm, sizes: SizeMap, cs: seq<Candidate>) {
    forall c :: c in cs ==> Settled(sizes, Group(norm, cs, KeyOf(norm, c))) != []
  }

  lemma KeysSettle(norm: Norm, sizes: SizeMap, cs: seq<Candidate>, keys: seq<Key>)
    requires forall c :: c in cs ==> KeyOf(norm, c) in keys
    requires forall k :: k in keys ==> Group(norm, cs, k) != []
    ensures AllGroupsSettle(norm, sizes, cs) <==> SettleUnder(norm, sizes, cs, keys)
  {
    if AllGroupsSettle(norm, sizes, cs) {
      forall k | k in keys ensures Settled(sizes, Group(norm, cs, k)) != [] {
        GroupMembers(norm, cs, k);
        var c := Group(norm, cs, k)[0];
        assert c in cs && KeyOf(norm, c) == k;
      }
    }
  }

  // ---------------------------------------------------------------- the groups in words

  /** The two candidates would have the same unique key. */
  ghost predicate SharesKey(norm: Norm, a: Candidate, b: Candidate) {
    a.orderId == b.orderId && norm(a.storeCode) == norm(b.storeCode) && a.newSkuId == b.newSkuId && a.offer == b.offer
  }

  ghost predicate Unshared(norm: Norm, cs: seq<Candidate>, c: Candidate) {
    forall d :: d in cs && SharesKey(norm, c, d) ==> d == c
  }

  /** The size of the old sales row: as parsed from it, else its size column. */
  ghost function SalesRowSize(c: Candidate): string { FirstGiven([c.oldSize, c.normOldSize]) }

  /** All that share the key of `c` have its SKU key, sizes of their own, and sizes known for that key. */
  ghost predicate Divisible(norm: Norm, sizes: SizeMap, cs: seq<Candidate>, c: Candidate) {
    && (forall d :: d in cs && SharesKey(norm, c, d) ==>
          d.newSkuKey == c.newSkuKey && (c.newSkuKey, SalesRowSize(d)) in sizes)
    && forall d, e :: d in cs && e in cs && SharesKey(norm, c, d) && SharesKey(norm, c, e) && d != e ==>
         SalesRowSize(d) != SalesRowSize(e)
  }

  lemma MembersShare(norm: Norm, cs: seq<Candidate>, c: Candidate)
    requires DistinctSales(cs)
    ensures var items := Group(norm, cs, KeyOf(norm, c));
            DistinctSales(items) && forall d :: d in items <==> d in cs && SharesKey(norm, c, d)
  {
    GroupMembers(norm, cs, KeyOf(norm, c));
    GroupDistinct(norm, cs, KeyOf(norm, c));
  }

  lemma UnsharedIffSingle(norm: Norm, cs: seq<Candidate>, c: Candidate)
    requires DistinctSales(cs) && c in cs
    ensures |Group(norm, cs, KeyOf(norm, c))| == 1 <==> Unshared(norm, cs, c)
  {
    var items := Group(norm, cs, KeyOf(norm, c));
    MembersShare(norm, cs, c);
    assert c in items;
    if |items| > 1 {
      assert items[0] in items && items[1] in items && items[0].saleId != items[1].saleId;
    }
  }

  lemma SplittableIffDivisible(norm: Norm, sizes: SizeMap, cs: seq<Candidate>, c: Candidate)
    requires DistinctSales(cs) && c in cs
    ensures Splittable(sizes, Group(norm, cs, KeyOf(norm, c))) <==> Divisible(norm, sizes, cs, c)
  {
    var items := Group(norm, cs, KeyOf(norm, c));
    MembersShare(norm, cs, c);
    var n :| 0 <= n < |items| && items[n] == c;
    forall d ensures SalesRowSize(d) == OldSizeOf(d) {
      FirstOfTwo(d.oldSize, d.normOldSize);
    }
    if Splittable(sizes, items) {
      SplittableDivides(norm, sizes, cs, c, items, n);
    }
    if Divisible(norm, sizes, cs, c) {
      forall i | 0 <= i < |items| ensures items[i] in items && items[i].newSkuKey == c.newSkuKey {
      }
      assert forall i, j :: 0 <= i < j < |items| ==> items[i] != items[j];
    }
  }

  lemma SplittableDivides(
    norm: Norm, sizes: SizeMap, cs: seq<Candidate>, c: Candidate, items: seq<Candidate>, n: nat)
    requires forall d :: d in items <==> d in cs && SharesKey(norm, c, d)
    requires forall d :: SalesRowSize(d) == OldSizeOf(d)
    requires n < |items| && items[n] == c && Splittable(sizes, items)
    ensures Divisible(norm, sizes, cs, c)
  {
    forall d | d in cs && SharesKey(norm, c, d)
      ensures d.newSkuKey == c.newSkuKey && (c.newSkuKey, SalesRowSize(d)) in sizes
    {
      var i :| 0 <= i < |items| && items[i] == d;
      assert i < n || n < i || i == n;
    }
    forall d, e | d in cs && e in cs && SharesKey(norm, c, d) && SharesKey(norm, c, e) && d != e
      ensures SalesRowSize(d) != SalesRowSize(e)
    {
      var i, j :| 0 <= i < |items| && 0 <= j < |items| && items[i] == d && items[j] == e;
      assert i < j || j < i;
    }
  }

  /** A candidate's group settles exactly when it is alone with its key or the group divides by size. */
  lemma SettlesIff(norm: Norm, sizes: SizeMap, cs: seq<Candidate>, c: Candidate)
    requires DistinctSales(cs) && c in cs
    ensures Settled(sizes, Group(norm, cs, KeyOf(norm, c))) != [] <==>
            Unshared(norm, cs, c) || Divisible(norm, sizes, cs, c)
  {
    MembersShare(norm, cs, c);
    UnsharedIffSingle(norm, cs, c);
    SplittableIffDivisible(norm, sizes, cs, c);
    assert c in Group(norm, cs, KeyOf(norm, c));
  }

  /** What it becomes: itself when alone; else itself with the size of its sales row and the SKU id of that
      size. */
  lemma SettlesTo(norm: Norm, sizes: SizeMap, cs: seq<Candidate>, c: Candidate, d: Candidate)
    requires DistinctSales(cs) && SettledAs(norm, sizes, cs, c, d)
    ensures if Unshared(norm, cs, c) then d == c
            else
              && Divisible(norm, sizes, cs, c)
              && d.newSize == SalesRowSize(c) && d.newSkuId == SkuIdFor(sizes, c.newSkuKey, SalesRowSize(c))
              && d.saleId == c.saleId && d.orderId == c.orderId && d.storeCode == c.storeCode && d.offer == c.offer
              && d.newSkuKey == c.newSkuKey && d.priority == 55
  {
    UnsharedIffSingle(norm, cs, c);
    SplittableIffDivisible(norm, sizes, cs, c);
    FirstOfTwo(c.oldSize, c.normOldSize);
  }

  /** The key of a table row, as the query spells it: COALESCE keeps an empty store code. */
  function RowKey(norm: Norm, row: SaleRow): Key {
    Key(row.orderId, norm(if row.store.Some? then row.store.value else "UNIVERSAL"), row.skuId, row.offer)
  }

  predicate Occupies(norm: Norm, row: SaleRow, c: Candidate) {
    row.saleId != c.saleId && RowKey(norm, row) == KeyOf(norm, c)
  }

  /** `fetchone`: the first other row that already has the new key. */
  function Occupant(norm: Norm, rows: seq<SaleRow>, c: Candidate): (r: Option<SaleRow>)
    ensures r.Some? ==> r.value in rows && Occupies(norm, r.value, c)
    ensures r.None? ==> forall row :: row in rows ==> !Occupies(norm, row, c)
  {
    if rows == [] then None
    else if Occupies(norm, rows[0], c) then Some(rows[0])
    else Occupant(norm, rows[1..], c)
  }

  /** Another row holds the new key of `c`: its store, "UNIVERSAL" if it has none, is that of `c` once
      normalised, and its order, SKU id and offer are the same. */
  ghost predicate Holds(norm: Norm, row: SaleRow, c: Candidate) {
    && row.saleId != c.saleId && row.orderId == c.orderId && row.skuId == c.newSkuId && row.offer == c.offer
    && exists store :: (row.store == Some(store) || (row.store == None && store == "UNIVERSAL"))
                       && norm(store) == norm(c.storeCode)
  }

  lemma OccupiesMeaning(norm: Norm, row: SaleRow, c: Candidate)
    ensures Occupies(norm, row, c) <==> Holds(norm, row, c)
  {
    if row.store.Some? {
      assert row.store == Some(row.store.value);
    }
  }

  /** The first row to hold the new key. */
  ghost predicate FirstHolder(norm: Norm, rows: seq<SaleRow>, c: Candidate, i: nat) {
    i < |rows| && Holds(norm, rows[i], c) && forall j :: 0 <= j < i ==> !Holds(norm, rows[j], c)
  }

  lemma {:induction false} OccupantIsFirst(norm: Norm, rows: seq<SaleRow>, c: Candidate, i: nat)
    requires FirstHolder(norm, rows, c, i)
    ensures Occupant(norm, rows, c) == Some(rows[i])
  {
    OccupiesMeaning(norm, rows[0], c);
    if i > 0 {
      OccupantIsFirst(norm, rows[1..], c, i - 1);
    }
  }

  predicate Blocked(norm: Norm, rows: seq<SaleRow>, split: seq<Candidate>, c: Candidate) {
    var o := Occupant(norm, rows, c);
    o.Some? && forall k :: 0 <= k < |split| ==> split[k].saleId != o.value.saleId
  }

  /** Blocked exactly when the first row to hold the new key is no candidate's. */
  lemma BlockedMeaning(norm: Norm, rows: seq<SaleRow>, split: seq<Candidate>, c: Candidate)
    ensures Blocked(norm, rows, split, c) <==>
            exists i: nat :: FirstHolder(norm, rows, c, i) && forall d :: d in split ==> d.saleId != rows[i].saleId
  {
    if i: nat :| FirstHolder(norm, rows, c, i) {
      OccupantIsFirst(norm, rows, c, i);
    } else {
      NoHolder(norm, rows, c);
    }
    if i: nat :| FirstHolder(norm, rows, c, i) && forall d :: d in split ==> d.saleId != rows[i].saleId {
      OccupantIsFirst(norm, rows, c, i);
      assert forall k :: 0 <= k < |split| ==> split[k] in split;
    }
  }

  lemma {:induction false} NoHolder(norm: Norm, rows: seq<SaleRow>, c: Candidate)
    requires forall i: nat :: !FirstHolder(norm, rows, c, i)
    ensures Occupant(norm, rows, c) == None
  {
    if rows != [] {
      OccupiesMeaning(norm, rows[0], c);
      assert !FirstHolder(norm, rows, c, 0);
      forall i: nat ensures !FirstHolder(norm, rows[1..], c, i) {
        assert !FirstHolder(norm, rows, c, i + 1);
      }
      NoHolder(norm, rows[1..], c);
    }
  }

  ghost predicate UniqueKeys(norm: Norm, rows: seq<SaleRow>) {
    forall i, j :: 0 <= i < j < |rows| ==> RowKey(norm, rows[i]) != RowKey(norm, rows[j])
  }

  /** The query looks at the first occupant only; on a table with unique keys that is the only one. */
  lemma BlockedMeansOutsider(norm: Norm, rows: seq<SaleRow>, split: seq<Candidate>, c: Candidate)
    requires UniqueKeys(norm, rows)
    ensures Blocked(norm, rows, split, c) <==>
            exists row :: row in rows && Holds(norm, row, c) && !HasSale(split, row.saleId)
  {
    forall row ensures Occupies(norm, row, c) <==> Holds(norm, row, c) {
      OccupiesMeaning(norm, row, c);
    }
    if row :| row in rows && Occupies(norm, row, c) && !HasSale(split, row.saleId) {
      var first := Occupant(norm, rows, c).value;
      var i :| 0 <= i < |rows| && rows[i] == row;
      var j :| 0 <= j < |rows| && rows[j] == first;
      assert RowKey(norm, rows[i]) == RowKey(norm, rows[j]);
      assert i == j;
    }
    if Blocked(norm, rows, split, c) {
      var first := Occupant(norm, rows, c).value;
      assert !HasSale(split, first.saleId);
    }
  }

  ghost predicate NoneBlocked(norm: Norm, rows: seq<SaleRow>, split: seq<Candidate>) {
    forall c :: c in split ==> !Blocked(norm, rows, split, c)
  }

  /** Every candidate's row is still there. */
  ghost predicate KeepsAll(cs: seq<Candidate>, final: seq<Candidate>) {
    forall c {:trigger HasSale(final, c.saleId)} :: c in cs ==> HasSale(final, c.saleId)
  }

  /** The state of the second loop after the candidates `seen`. */
  ghost predicate CheckedSoFar(
    norm: Norm, rows: seq<SaleRow>, split: seq<Candidate>, seen: seq<Candidate>,
    final: seq<Candidate>, xs: seq<Excluded>)
  {
    && (forall c :: c in seen ==> Accounted(final, xs, c.saleId))
    && (forall c :: c in final <==> c in seen && !Blocked(norm, rows, split, c))
    && (xs == [] <==> forall c :: c in seen ==> !Blocked(norm, rows, split, c))
    && (xs == [] ==> final == seen)
  }

  lemma CheckedOneMore(
    norm: Norm, rows: seq<SaleRow>, split: seq<Candidate>, seen: seq<Candidate>,
    final: seq<Candidate>, xs: seq<Excluded>, c: Candidate)
    requires CheckedSoFar(norm, rows, split, seen, final, xs)
    ensures if Blocked(norm, rows, split, c)
            then CheckedSoFar(norm, rows, split, seen + [c], final, xs + [BlockRecord(norm, rows, split, c)])
            else CheckedSoFar(norm, rows, split, seen + [c], final + [c], xs)
  {
    var blocked := Blocked(norm, rows, split, c);
    var more := if blocked then [] else [c];
    var records := if blocked then [BlockRecord(norm, rows, split, c)] else [];
    forall d | d in seen + [c] ensures Accounted(final + more, xs + records, d.saleId) {
      if d in seen {
        StillAccounted(final, more, xs, records, d.saleId);
      } else {
        CheckedNow(norm, rows, split, final, xs, c);
      }
    }
    assert final + [] == final && xs + [] == xs;
  }

  lemma CheckedNow(
    norm: Norm, rows: seq<SaleRow>, split: seq<Candidate>, final: seq<Candidate>, xs: seq<Excluded>, c: Candidate)
    ensures var blocked := Blocked(norm, rows, split, c);
            Accounted(final + if blocked then [] else [c],
                      xs + if blocked then [BlockRecord(norm, rows, split, c)] else [], c.saleId)
  {
    if Blocked(norm, rows, split, c) {
      var record := BlockRecord(norm, rows, split, c);
      assert record in xs + [record] && Names(record, c.saleId);
    } else {
      assert c in final + [c];
    }
  }

  function BlockRecord(norm: Norm, rows: seq<SaleRow>, split: seq<Candidate>, c: Candidate): Excluded
    requires Blocked(norm, rows, split, c)
  {
    ExistingCollision(c.saleId, Occupant(norm, rows, c).value.saleId)
  }

  /** The second loop: a candidate whose new key the first row to hold it keeps outside the repair is
      excluded. */
  method CheckExisting(norm: Norm, rows: seq<SaleRow>, split: seq<Candidate>)
    returns (final: seq<Candidate>, xs: seq<Excluded>)
    ensures forall c :: c in split ==> Accounted(final, xs, c.saleId)
    ensures forall c :: c in final <==> c in split && !Blocked(norm, rows, split, c)
    ensures xs == [] <==> NoneBlocked(norm, rows, split)
    ensures xs == [] ==> final == split
  {
    final, xs := [], [];
    ghost var seen := [];
    for n := 0 to |split|
      invariant seen == split[..n] && CheckedSoFar(norm, rows, split, seen, final, xs)
    {
      var c := split[n];
      CheckedOneMore(norm, rows, split, seen, final, xs, c);
      seen := seen + [c];
      if Blocked(norm, rows, split, c) {
        xs := xs + [BlockRecord(norm, rows, split, c)];
      } else {
        final := final + [c];
      }
    }
    assert seen == split;
    AllChecked(norm, rows, split, final, xs);
  }

  lemma AllChecked(norm: Norm, rows: seq<SaleRow>, split: seq<Candidate>, final: seq<Candidate>, xs: seq<Excluded>)
    requires CheckedSoFar(norm, rows, split, split, final, xs)
    ensures forall c :: c in split ==> Accounted(final, xs, c.saleId)
    ensures forall c :: c in final <==> c in split && !Blocked(norm, rows, split, c)
    ensures xs == [] <==> NoneBlocked(norm, rows, split)
    ensures xs == [] ==> final == split
  {
  }

  // ---------------------------------------------------------------- nothing is dropped silently

  lemma NoRecordMeansSale(targets: seq<SaleRow>, final: seq<Candidate>)
    requires forall p :: 0 <= p < |targets| ==> Accounted(final, [], targets[p].saleId)
    ensures forall p :: 0 <= p < |targets| ==> HasSale(final, targets[p].saleId)
  {
  }

  /** What the candidates are: `combined` the rightful ones, primary evidence first and else in the order of
      the targets; `split` what their groups become, group after group. */
  ghost predicate Planned(
    lk: Lookups, norm: Norm, targets: seq<SaleRow>, combined: seq<Candidate>, split: seq<Candidate>)
  {
    && AllMadeFor(targets, |targets|, combined) && (forall c :: c in combined ==> RightfulSome(lk, norm, targets, c))
    && (AllDecided(lk, norm, targets) ==> forall p :: 0 <= p < |targets| ==> HasSale(combined, targets[p].saleId))
    && Sequenced(lk, norm, targets, combined)
    && AllSettled(norm, lk.sizes, combined, split)
    && split == SettleAll(norm, lk.sizes, combined, KeysOf(norm, combined))
  }

  /** `build_candidates`. Every target ends in the final list or is named in an exclusion record. There is
      no record if and only if the evidence settles every target, every group settles, and no settled
      key belongs to a row outside; then the final list is what the groups settle to. */
  method BuildCandidates(lk: Lookups, norm: Norm, targets: seq<SaleRow>, rows: seq<SaleRow>)
    returns (
      final: seq<Candidate>, excluded: seq<Excluded>, ghost combined: seq<Candidate>, ghost split: seq<Candidate>)
    requires Keyed(targets)
    ensures forall p :: 0 <= p < |targets| ==> Accounted(final, excluded, targets[p].saleId)
    ensures Planned(lk, norm, targets, combined, split)
    ensures excluded == [] <==> Clean(lk, norm, targets, rows, combined, split)
    ensures excluded == [] ==> final == split && KeepsAll(combined, final)
  {
    var cs, before := Combine(lk, norm, targets);
    combined := cs;
    var settled, collisions := SplitGroups(norm, lk.sizes, cs);
    split := settled;
    if before == [] {
      NoRecordMeansSale(targets, cs);
    }
    var existing;
    final, existing := CheckExisting(norm, rows, settled);
    excluded := before + collisions + existing;
    NothingDropped(norm, lk.sizes, targets, cs, settled, final, before, collisions, existing);
    CleanIffNoRecords(lk, norm, targets, rows, cs, settled, before, collisions, existing);
    if excluded == [] {
      AllKept(norm, lk.sizes, cs, settled);
    }
  }

  lemma CleanIffNoRecords(
    lk: Lookups, norm: Norm, targets: seq<SaleRow>, rows: seq<SaleRow>, cs: seq<Candidate>, split: seq<Candidate>,
    before: seq<Excluded>, collisions: seq<Excluded>, existing: seq<Excluded>)
    requires before == [] <==> AllDecided(lk, norm, targets)
    requires collisions == [] <==> AllGroupsSettle(norm, lk.sizes, cs)
    requires existing == [] <==> NoneBlocked(norm, rows, split)
    ensures before + collisions + existing == [] <==> Clean(lk, norm, targets, rows, cs, split)
    ensures before + collisions + existing == [] ==> collisions == [] && existing == []
  {
    assert |before + collisions + existing| == |before| + |collisions| + |existing|;
  }

  lemma NothingDropped(
    norm: Norm, sizes: SizeMap, targets: seq<SaleRow>, cs: seq<Candidate>, split: seq<Candidate>, final: seq<Candidate>,
    before: seq<Excluded>, collisions: seq<Excluded>, existing: seq<Excluded>)
    requires forall p :: 0 <= p < |targets| ==> Accounted(cs, before, targets[p].saleId)
    requires forall c :: c in cs ==>
               if Settled(sizes, Group(norm, cs, KeyOf(norm, c))) == [] then Named(collisions, c.saleId)
               else HasSale(split, c.saleId)
    requires forall c :: c in split ==> Accounted(final, existing, c.saleId)
    ensures forall p :: 0 <= p < |targets| ==> Accounted(final, before + collisions + existing, targets[p].saleId)
  {
    forall p | 0 <= p < |targets| ensures Accounted(final, before + collisions + existing, targets[p].saleId) {
      CarryThrough(cs, split, final, before, collisions, existing, targets[p].saleId);
    }
  }

  lemma AllKept(norm: Norm, sizes: SizeMap, cs: seq<Candidate>, split: seq<Candidate>)
    requires AllGroupsSettle(norm, sizes, cs)
    requires forall c :: c in cs && Settled(sizes, Group(norm, cs, KeyOf(norm, c))) != [] ==> HasSale(split, c.saleId)
    ensures KeepsAll(cs, split)
  {
  }

  /** What a run without exclusion records comes down to. */
  ghost predicate Clean(
    lk: Lookups, norm: Norm, targets: seq<SaleRow>, rows: seq<SaleRow>, combined: seq<Candidate>, split: seq<Candidate>)
  {
    AllDecided(lk, norm, targets) && AllGroupsSettle(norm, lk.sizes, combined) && NoneBlocked(norm, rows, split)
  }

  lemma CarryThrough(
    cs: seq<Candidate>, split: seq<Candidate>, final: seq<Candidate>,
    before: seq<Excluded>, collisions: seq<Excluded>, existing: seq<Excluded>, id: int)
    requires Accounted(cs, before, id)
    requires forall c :: c in cs ==> Accounted(split, collisions, c.saleId)
    requires forall c :: c in split ==> Accounted(final, existing, c.saleId)
    ensures Accounted(final, before + collisions + existing, id)
  {
    if !HasSale(final, id) {
      if HasSale(cs, id) && HasSale(split, id) {
        assert Named(existing, id);
        NamedIn(before + collisions, existing, id);
      } else {
        NamedIn(before, collisions, id);
        NamedIn(before + collisions, existing, id);
      }
    }
  }
}
