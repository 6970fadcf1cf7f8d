/**
  The product table: products grouped by part in order of first
  appearance, the groups ordered required first and then by name, and the
  rows, badge and spec columns each group shows.
*/
module ProductTable {
  import opened Wrappers
  import SpecExtract

  /** A product as the table receives it; `mall`, `category`, `part` and `required` may be absent. */
  datatype Product = Product(
    name: string, price: string, link: string,
    mall: Option<string>, category: Option<string>, part: Option<string>, required: Option<bool>)

  const Other: string := "기타"

  /** `product.part || "기타"`: an absent or empty part groups under `기타`. */
  function GroupKey(p: Product): (k: string)
    ensures k != []
    ensures k == Other <==> p.part.None? || p.part.value == [] || p.part.value == Other
  {
    if p.part.Some? && p.part.value != [] then p.part.value else Other
  }

  // ---------------------------------------------------------------------------
  // Grouping

  /** The keys of the accumulator object, in the order `reduce` first creates them. */
  function Keys(ps: seq<Product>): seq<string> {
    if ps == [] then []
    else
      var ks := Keys(ps[..|ps| - 1]);
      var k := GroupKey(ps[|ps| - 1]);
      if k in ks then ks else ks + [k]
  }

  /** The array the accumulator holds under `k`: the products whose key is `k`, in input order. */
  function Group(ps: seq<Product>, k: string): seq<Product> {
    if ps == [] then []
    else Group(ps[..|ps| - 1], k) + (if GroupKey(ps[|ps| - 1]) == k then [ps[|ps| - 1]] else [])
  }

  /** No key is created twice. */
  lemma {:induction false} KeysDistinct(ps: seq<Product>)
    ensures forall i, j :: 0 <= i < j < |Keys(ps)| ==> Keys(ps)[i] != Keys(ps)[j]
  {
    if ps != [] {
      KeysDistinct(ps[..|ps| - 1]);
    }
  }

  /** A key exists exactly when some product has it. */
  lemma {:induction false} KeysAreGroupKeys(ps: seq<Product>)
    ensures forall k :: k in Keys(ps) <==> exists i :: 0 <= i < |ps| && GroupKey(ps[i]) == k
  {
    if ps != [] {
      var init := ps[..|ps| - 1];
      KeysAreGroupKeys(init);
      forall k
        ensures k in Keys(ps) <==> exists i :: 0 <= i < |ps| && GroupKey(ps[i]) == k
      {
        if exists i :: 0 <= i < |ps| && GroupKey(ps[i]) == k {
          var i :| 0 <= i < |ps| && GroupKey(ps[i]) == k;
          if i < |init| {
            assert GroupKey(init[i]) == k;
          }
        }
        if k in Keys(init) {
          var i :| 0 <= i < |init| && GroupKey(init[i]) == k;
          assert GroupKey(ps[i]) == k;
        }
      }
    }
  }

  /** A group holds exactly the products with its key. */
  lemma {:induction false} GroupMembers(ps: seq<Product>, k: string)
    ensures forall p :: p in Group(ps, k) <==> p in ps && GroupKey(p) == k
  {
    if ps != [] {
      var init := ps[..|ps| - 1];
      GroupMembers(init, k);
      assert ps == init + [ps[|ps| - 1]];
    }
  }

  /** Grouping a concatenation groups each half and concatenates: `reduce` keeps input order within a group. */
  lemma {:induction false} GroupAppend(ps: seq<Product>, qs: seq<Product>, k: string)
    ensures Group(ps + qs, k) == Group(ps, k) + Group(qs, k)
  {
    if qs == [] {
      assert ps + qs == ps;
    } else {
      var init := qs[..|qs| - 1];
      GroupAppend(ps, init, k);
      assert (ps + qs)[..|ps + qs| - 1] == ps + init;
    }
  }

  /** A group is empty exactly when its key was never created, so `groupedProducts[a][0]` always exists. */
  lemma {:induction false} GroupEmptyIff(ps: seq<Product>, k: string)
    ensures Group(ps, k) == [] <==> k !in Keys(ps)
  {
    if ps != [] {
      GroupEmptyIff(ps[..|ps| - 1], k);
    }
  }

  /** The groups of the keys `ks`, one after the other. */
  function Gather(ps: seq<Product>, ks: seq<string>): seq<Product> {
    if ks == [] then [] else Gather(ps, ks[..|ks| - 1]) + Group(ps, ks[|ks| - 1])
  }

  /** Adding one product adds it to the gathered groups exactly when its key is among `ks`. */
  lemma {:induction false} GatherPush(init: seq<Product>, p: Product, ks: seq<string>)
    requires forall i, j :: 0 <= i < j < |ks| ==> ks[i] != ks[j]
    ensures multiset(Gather(init + [p], ks)) ==
      multiset(Gather(init, ks)) + if GroupKey(p) in ks then multiset{p} else multiset{}
  {
    if ks != [] {
      var front := ks[..|ks| - 1];
      var last := ks[|ks| - 1];
      GatherPush(init, p, front);
      assert (init + [p])[..|init + [p]| - 1] == init;
      assert GroupKey(p) in ks <==> GroupKey(p) in front || GroupKey(p) == last;
      assert GroupKey(p) == last ==> GroupKey(p) !in front;
    }
  }

  /** Every product lands in exactly one group: the groups together are a rearrangement of the input. */
  lemma {:induction false} GroupsPartition(ps: seq<Product>)
    ensures multiset(Gather(ps, Keys(ps))) == multiset(ps)
  {
    if ps != [] {
      var init := ps[..|ps| - 1];
      var p := ps[|ps| - 1];
      assert ps == init + [p];
      GroupsPartition(init);
      KeysDistinct(init);
      GatherPush(init, p, Keys(init));
      var k := GroupKey(p);
      if k !in Keys(init) {
        GroupEmptyIff(init, k);
        assert Group(ps, k) == [p];
      }
    }
  }

  /**
    The `reduce` of `ProductTable`: each product's key is created on first
    sight and the product pushed onto its array.
  */
  method GroupProducts(products: seq<Product>) returns (keys: seq<string>, groups: map<string, seq<Product>>)
    ensures keys == Keys(products)
    ensures forall k :: k in groups <==> k in keys
    ensures forall k :: k in groups ==> groups[k] == Group(products, k)
  {
    keys := [];
    groups := map[];
    for i := 0 to |products|
      invariant keys == Keys(products[..i])
      invariant forall k :: k in groups <==> k in keys
      invariant forall k :: k in groups ==> groups[k] == Group(products[..i], k)
    {
      var part := GroupKey(products[i]);
      assert products[..i + 1][..i] == products[..i];
      if part !in groups {
        GroupEmptyIff(products[..i], part);
        groups := groups[part := []];
        keys := keys + [part];
      }
      groups := groups[part := groups[part] + [products[i]]];
    }
    assert products[..|products|] == products;
  }

  // ---------------------------------------------------------------------------
  // Ordering the groups

  /** `groupedProducts[a][0]?.required ?? true`: required unless the first product says `required: false`. */
  function Required(group: seq<Product>): bool {
    if group == [] || group[0].required.None? then true else group[0].required.value
  }

  /** `!groupedProducts[part][0]?.required`: the optional badge shows unless the first product says `required: true`. */
  function OptionalBadge(group: seq<Product>): bool {
    group == [] || group[0].required != Some(true)
  }

  /**
    A group whose first product leaves `required` out is sorted among the
    required groups and still shows the optional badge; when `required` is
    given, the badge and the sort agree.
  */
  lemma BadgeAndSortDisagree(group: seq<Product>)
    requires group != []
    ensures group[0].required.None? ==> Required(group) && OptionalBadge(group)
    ensures group[0].required.Some? ==> OptionalBadge(group) == !Required(group)
  {
  }

  /** `a.localeCompare(b)`, approximated by code-point order: negative, zero or positive. */
  function LocaleCompare(a: string, b: string): (r: int)
    ensures -1 <= r <= 1
  {
    if a == [] && b == [] then 0
    else if a == [] then -1
    else if b == [] then 1
    else if a[0] < b[0] then -1
    else if b[0] < a[0] then 1
    else LocaleCompare(a[1..], b[1..])
  }

  lemma {:induction false} LocaleCompareAntisymmetric(a: string, b: string)
    ensures LocaleCompare(a, b) == -LocaleCompare(b, a)
    ensures LocaleCompare(a, b) == 0 <==> a == b
  {
    if a != [] && b != [] && a[0] == b[0] {
      LocaleCompareAntisymmetric(a[1..], b[1..]);
      assert a == [a[0]] + a[1..] && b == [b[0]] + b[1..];
    }
  }

  lemma {:induction false} LocaleCompareTransitive(a: string, b: string, c: string)
    requires LocaleCompare(a, b) < 0 && LocaleCompare(b, c) < 0
    ensures LocaleCompare(a, c) < 0
  {
    if a != [] && b != [] && c != [] && a[0] == b[0] && b[0] == c[0] {
      LocaleCompareTransitive(a[1..], b[1..], c[1..]);
    }
  }

  /** A group key with its required flag, as the comparator reads them. */
  type Ranked = (string, bool)

  /** The comparator of `sort`: required before optional, then `localeCompare` of the keys. */
  function Compare(a: Ranked, b: Ranked): (r: int)
    ensures -1 <= r <= 1
  {
    if a.1 && !b.1 then -1
    else if !a.1 && b.1 then 1
    else LocaleCompare(a.0, b.0)
  }

  /** The comparator is consistent: antisymmetric, zero only on equal arguments, and transitive. */
  lemma CompareIsTotalOrder(a: Ranked, b: Ranked, c: Ranked)
    ensures Compare(a, b) == -Compare(b, a)
    ensures Compare(a, b) == 0 <==> a == b
    ensures Compare(a, b) < 0 && Compare(b, c) < 0 ==> Compare(a, c) < 0
  {
    LocaleCompareAntisymmetric(a.0, b.0);
    if Compare(a, b) < 0 && Compare(b, c) < 0 && a.1 == b.1 && b.1 == c.1 {
      LocaleCompareTransitive(a.0, b.0, c.0);
    }
  }

  predicate Sorted(s: seq<Ranked>) {
    forall i, j :: 0 <= i < j < |s| ==> Compare(s[i], s[j]) <= 0
  }

  function Insert(x: Ranked, s: seq<Ranked>): seq<Ranked> {
    if s == [] || Compare(x, s[0]) <= 0 then [x] + s else [s[0]] + Insert(x, s[1..])
  }

  /** The keys in the order `sort` leaves them, computed by insertion. */
  function Sort(s: seq<Ranked>): seq<Ranked> {
    if s == [] then [] else Insert(s[0], Sort(s[1..]))
  }

  lemma {:induction false} InsertPermutes(x: Ranked, s: seq<Ranked>)
    ensures multiset(Insert(x, s)) == multiset{x} + multiset(s)
  {
    if s != [] && Compare(x, s[0]) > 0 {
      InsertPermutes(x, s[1..]);
      assert s == [s[0]] + s[1..];
    }
  }

  lemma {:induction false} InsertSorted(x: Ranked, s: seq<Ranked>)
    requires Sorted(s)
    ensures Sorted(Insert(x, s))
  {
    if s == [] {
    } else if Compare(x, s[0]) <= 0 {
      forall j | 0 < j < |s|
        ensures Compare(x, s[j]) <= 0
      {
        CompareIsTotalOrder(x, s[0], s[j]);
        CompareIsTotalOrder(s[0], s[j], x);
      }
    } else {
      InsertSorted(x, s[1..]);
      InsertPermutes(x, s[1..]);
      var r := Insert(x, s[1..]);
      forall j | 0 <= j < |r|
        ensures Compare(s[0], r[j]) <= 0
      {
        assert r[j] in multiset(r);
        CompareIsTotalOrder(x, s[0], x);
      }
    }
  }

  /** The insertion order is a sorted rearrangement of its input. */
  lemma {:induction false} SortIsSortedPermutation(s: seq<Ranked>)
    ensures multiset(Sort(s)) == multiset(s)
    ensures Sorted(Sort(s))
  {
    if s != [] {
      SortIsSortedPermutation(s[1..]);
      InsertPermutes(s[0], Sort(s[1..]));
      InsertSorted(s[0], Sort(s[1..]));
      assert s == [s[0]] + s[1..];
    }
  }

  lemma SortedTail(s: seq<Ranked>)
    requires Sorted(s) && s != []
    ensures Sorted(s[1..])
  {
    forall i, j | 0 <= i < j < |s[1..]|
      ensures Compare(s[1..][i], s[1..][j]) <= 0
    {
      assert s[1..][i] == s[i + 1] && s[1..][j] == s[j + 1];
    }
  }

  /** The least element of a sorted sequence comes first: nothing in it compares before its head. */
  lemma SortedHead(s: seq<Ranked>, x: Ranked)
    requires Sorted(s) && x in multiset(s)
    ensures Compare(s[0], x) <= 0
  {
    var i :| 0 <= i < |s| && s[i] == x;
    CompareIsTotalOrder(s[0], x, s[0]);
  }

  lemma TailMultiset(s: seq<Ranked>)
    requires s != []
    ensures multiset(s[1..]) == multiset(s) - multiset{s[0]}
  {
    assert s == [s[0]] + s[1..];
  }

  /** Two sorted rearrangements of the same keys are equal, so any sorting algorithm leaves the order `Sort` gives. */
  lemma {:induction false} SortedUnique(s: seq<Ranked>, t: seq<Ranked>)
    requires Sorted(s) && Sorted(t) && multiset(s) == multiset(t)
    ensures s == t
  {
    if s == [] {
      assert |t| == |multiset(t)| == 0;
    } else {
      assert s[0] in multiset(t) && |t| == |multiset(t)| > 0;
      SortedHead(s, t[0]);
      SortedHead(t, s[0]);
      CompareIsTotalOrder(s[0], t[0], s[0]);
      assert s[0] == t[0];
      TailMultiset(s);
      TailMultiset(t);
      SortedTail(s);
      SortedTail(t);
      SortedUnique(s[1..], t[1..]);
    }
  }

  // ---------------------------------------------------------------------------
  // The rendered table

  function Names(s: seq<Ranked>): seq<string> {
    seq(|s|, i requires 0 <= i < |s| => s[i].0)
  }

  /** Each key of `ps` with its group's flag, in key order. */
  function RankedKeys(ps: seq<Product>): (r: seq<Ranked>)
    ensures Names(r) == Keys(ps)
    ensures forall x :: x in r ==> x.1 == Required(Group(ps, x.0))
  {
    var keys := Keys(ps);
    seq(|keys|, i requires 0 <= i < |keys| => (keys[i], Required(Group(ps, keys[i]))))
  }

  /** The key order the table shows: the keys with their flags, sorted, the flags dropped. */
  function Order(ps: seq<Product>): seq<string> {
    Names(Sort(RankedKeys(ps)))
  }

  lemma {:induction false} InsertNames(x: Ranked, s: seq<Ranked>)
    ensures multiset(Names(Insert(x, s))) == multiset{x.0} + multiset(Names(s))
  {
    if s == [] || Compare(x, s[0]) <= 0 {
      assert Names([x] + s) == [x.0] + Names(s);
    } else {
      InsertNames(x, s[1..]);
      assert Names([s[0]] + Insert(x, s[1..])) == [s[0].0] + Names(Insert(x, s[1..]));
      assert Names(s) == [s[0].0] + Names(s[1..]);
    }
  }

  lemma {:induction false} SortNames(s: seq<Ranked>)
    ensures multiset(Names(Sort(s))) == multiset(Names(s))
  {
    if s != [] {
      SortNames(s[1..]);
      InsertNames(s[0], Sort(s[1..]));
      assert Names(s) == [s[0].0] + Names(s[1..]);
    }
  }

  /** Every key is shown exactly once: the display order is a rearrangement of the keys. */
  lemma OrderPermutesKeys(ps: seq<Product>)
    ensures multiset(Order(ps)) == multiset(Keys(ps))
  {
    SortNames(RankedKeys(ps));
  }

  /** Required groups come first, and groups with the same flag follow `localeCompare` of their keys. */
  lemma OrderRequiredFirst(ps: seq<Product>)
    ensures var order := Order(ps);
      forall i, j :: 0 <= i < j < |order| ==>
        && (Required(Group(ps, order[i])) || !Required(Group(ps, order[j])))
        && (Required(Group(ps, order[i])) == Required(Group(ps, order[j])) ==> LocaleCompare(order[i], order[j]) <= 0)
  {
    var r := RankedKeys(ps);
    var sorted := Sort(r);
    SortIsSortedPermutation(r);
    forall i, j | 0 <= i < j < |sorted|
      ensures Required(Group(ps, sorted[i].0)) || !Required(Group(ps, sorted[j].0))
      ensures Required(Group(ps, sorted[i].0)) == Required(Group(ps, sorted[j].0)) ==> LocaleCompare(sorted[i].0, sorted[j].0) <= 0
    {
      assert sorted[i] in multiset(r) && sorted[j] in multiset(r);
      assert Compare(sorted[i], sorted[j]) <= 0;
    }
  }

  /** One product row: name and link, the spec columns `extractSpecs` fills for the group's key, the price and `product.mall || "-"`. */
  datatype Row = Row(name: string, link: string, specs: seq<string>, price: string, seller: string)

  /** One group: its key as heading, the optional badge, the spec labels as column heads, and its rows. */
  datatype Section = Section(part: string, optional: bool, labels: seq<string>, rows: seq<Row>)

  function RowOf(p: Product, part: string): (r: Row)
    ensures |r.specs| == |SpecExtract.Labels(part)|
  {
    Row(p.name, p.link, SpecExtract.Specs(p.name, part), p.price,
      if p.mall.Some? && p.mall.value != [] then p.mall.value else "-")
  }

  function SectionOf(ps: seq<Product>, part: string): Section {
    var g := Group(ps, part);
    Section(part, OptionalBadge(g), SpecExtract.Labels(part), seq(|g|, i requires 0 <= i < |g| => RowOf(g[i], part)))
  }

  /** What `ProductTable` renders for `products`, one section per key in display order. */
  function Table(ps: seq<Product>): seq<Section> {
    var order := Order(ps);
    seq(|order|, i requires 0 <= i < |order| => SectionOf(ps, order[i]))
  }

  /** A product occurs in the group of `k` as often as in the input when `k` is its key, and otherwise not at all. */
  lemma {:induction false} GroupCount(ps: seq<Product>, k: string, p: Product)
    ensures multiset(Group(ps, k))[p] == if GroupKey(p) == k then multiset(ps)[p] else 0
  {
    if ps != [] {
      var init := ps[..|ps| - 1];
      var last := ps[|ps| - 1];
      GroupCount(init, k, p);
      assert ps == init + [last];
      assert multiset(ps) == multiset(init) + multiset{last};
      assert Group(ps, k) == Group(init, k) + (if GroupKey(last) == k then [last] else []);
    }
  }

  /** Gathering the groups of distinct keys `ks` holds each product whose key is listed as often as the input does, and no other. */
  lemma {:induction false} GatherCount(ps: seq<Product>, ks: seq<string>, p: Product)
    requires forall i, j :: 0 <= i < j < |ks| ==> ks[i] != ks[j]
    ensures multiset(Gather(ps, ks))[p] == if GroupKey(p) in ks then multiset(ps)[p] else 0
  {
    if ks != [] {
      var front := ks[..|ks| - 1];
      var last := ks[|ks| - 1];
      GatherCount(ps, front, p);
      GroupCount(ps, last, p);
      assert GroupKey(p) in ks <==> GroupKey(p) in front || GroupKey(p) == last;
      assert GroupKey(p) == last ==> GroupKey(p) !in front;
    }
  }

  /** A key listed twice is counted at least twice. */
  lemma TwiceCounted(ks: seq<string>, i: nat, j: nat)
    requires i < j < |ks| && ks[i] == ks[j]
    ensures multiset(ks)[ks[i]] >= 2
  {
    var x := ks[i];
    assert ks == ks[..i] + [x] + ks[i + 1..j] + [x] + ks[j + 1..];
  }

  /** A rearrangement of keys listed without repeats has no repeats either. */
  lemma DistinctPermutation(ks: seq<string>, ls: seq<string>)
    requires forall i, j :: 0 <= i < j < |ks| ==> ks[i] != ks[j]
    requires multiset(ls) == multiset(ks)
    ensures forall i, j :: 0 <= i < j < |ls| ==> ls[i] != ls[j]
  {
    forall i, j | 0 <= i < j < |ls|
      ensures ls[i] != ls[j]
    {
      if ls[i] == ls[j] {
        TwiceCounted(ls, i, j);
        assert ls[i] in multiset(ks);
        DistinctOnce(ks, ls[i]);
      }
    }
  }

  /** A key listed without repeats is listed once. */
  lemma {:induction false} DistinctOnce(ks: seq<string>, k: string)
    requires forall i, j :: 0 <= i < j < |ks| ==> ks[i] != ks[j]
    requires k in ks
    ensures multiset(ks)[k] == 1
  {
    var front := ks[..|ks| - 1];
    assert ks == front + [ks[|ks| - 1]];
    if k == ks[|ks| - 1] {
      assert k !in front;
    } else {
      DistinctOnce(front, k);
    }
  }

  /**
    The table shows every product exactly once: the groups behind its
    sections, in display order, hold the input products, each as often as
    it was given. Section `i` is headed by key `i` of the display order,
    shows its group's badge and its category's labels, and has one row per
    product of that group, in input order.
  */
  lemma TableSections(ps: seq<Product>)
    ensures multiset(Gather(ps, Order(ps))) == multiset(ps)
    ensures |Table(ps)| == |Order(ps)|
    ensures forall i :: 0 <= i < |Table(ps)| ==>
      var s := Table(ps)[i];
      && s.part == Order(ps)[i] && s.optional == OptionalBadge(Group(ps, s.part))
      && s.labels == SpecExtract.Labels(s.part) && |s.rows| == |Group(ps, s.part)|
      && forall j :: 0 <= j < |s.rows| ==> s.rows[j] == RowOf(Group(ps, s.part)[j], s.part)
  {
    forall p
      ensures multiset(Gather(ps, Order(ps)))[p] == multiset(ps)[p]
    {
      ShownOnce(ps, p);
    }
  }

  lemma ShownOnce(ps: seq<Product>, p: Product)
    ensures multiset(Gather(ps, Order(ps)))[p] == multiset(ps)[p]
  {
    OrderPermutesKeys(ps);
    KeysDistinct(ps);
    DistinctPermutation(Keys(ps), Order(ps));
    GatherCount(ps, Order(ps), p);
    if p in ps {
      KeysAreGroupKeys(ps);
      var i :| 0 <= i < |ps| && ps[i] == p;
      assert GroupKey(ps[i]) in Keys(ps);
      assert GroupKey(p) in multiset(Order(ps));
    }
  }

  /** Every row has one spec cell per column head of its section. */
  lemma RowsMatchColumns(ps: seq<Product>)
    ensures forall s, r :: s in Table(ps) && r in s.rows ==> |r.specs| == |s.labels|
  {
  }
}
