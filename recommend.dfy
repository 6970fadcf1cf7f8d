/**
  The `/recommend` handler of the back end: one search per part, a
  stand-in product for a part whose search raised or found nothing, the
  products tagged with their part, the text block of candidates the
  recommendation prompt carries, and the products of the response.
*/
module Recommend {
  import opened Wrappers
  import opened Text
  import opened Uri
  import opened NaverService
  import ProductTable

  /** `part_types`: each part with the text its search query starts with, in order. */
  const PartTypes: seq<(string, string)> := [
    ("CPU", "데스크탑 CPU"),
    ("메인보드", "데스크탑 메인보드"),
    ("그래픽카드", "그래픽카드"),
    ("메모리", "데스크탑 메모리"),
    ("SSD", "SSD"),
    ("파워서플라이", "파워서플라이"),
    ("케이스", "PC 케이스")
  ]

  /** `example_products`: the stand-in product name of each part. */
  const ExampleProducts: map<string, string> := map[
    "CPU" := "AMD 라이젠 5 5600X",
    "메인보드" := "ASUS PRIME B550M-A",
    "그래픽카드" := "NVIDIA GeForce RTX 3060",
    "메모리" := "삼성전자 DDR4 16GB",
    "SSD" := "삼성전자 970 EVO Plus 500GB",
    "파워서플라이" := "마이크로닉스 Classic II 600W",
    "케이스" := "ABKO NCORE 식스팬 풀 아크릴 LUNAR"
  ]

  /** The `limit` each search is made with. */
  const Limit: int := 4

  const NoPriceInfo: string := "정보 없음"

  /** A product of `all_products`: a copy of a part's product with `part` set. */
  datatype TaggedProduct = TaggedProduct(name: string, price: string, link: string, part: string)

  /** `NaverProduct` of the response schema; `mall`, `category` and `part` default to `None`, `required` to `True`. */
  datatype ResponseProduct = ResponseProduct(
    name: string, price: string, link: string,
    mall: Option<string>, category: Option<string>, part: Option<string>, required: bool)

  /** Every part has a stand-in. */
  lemma ExamplesCoverParts()
    ensures forall k :: 0 <= k < |PartTypes| ==> PartTypes[k].0 in ExampleProducts
  {
  }

  /** The search query of a part: its query text, a space, then the user's prompt. */
  function Query(queryName: string, prompt: string): string {
    queryName + " " + prompt
  }

  /** The stand-in product: the example name, no price, and the search URL with the name appended as it is. */
  function StandIn(part: string): NaverProduct
    requires part in ExampleProducts
  {
    var name := ExampleProducts[part];
    NaverProduct(name, NoPriceInfo, SearchBase + name)
  }

  /** What a part ends up with: what its search returned, or the stand-in when the search raised or returned nothing. */
  function PartProducts(part: string, outcome: Result<seq<NaverProduct>, Failure>): (ps: seq<NaverProduct>)
    requires part in ExampleProducts
    ensures ps != []
    ensures outcome.Ok? && outcome.value != [] ==> ps == outcome.value
    ensures outcome.Err? || outcome.value == [] ==> ps == [StandIn(part)]
  {
    if outcome.Ok? && outcome.value != [] then outcome.value else [StandIn(part)]
  }

  /** What the search of part `k` returns or raises. */
  function Outcome(k: nat, prompt: string, clientId: string, clientSecret: string, search: string -> Reply): Result<seq<NaverProduct>, Failure>
    requires k < |PartTypes|
  {
    Fetch(clientId, clientSecret, search(Query(PartTypes[k].1, prompt)), Limit)
  }

  /** `part_products`: each part in `part_types` order with its products. */
  function Catalog(prompt: string, clientId: string, clientSecret: string, search: string -> Reply): seq<(string, seq<NaverProduct>)> {
    seq(|PartTypes|, k requires 0 <= k < |PartTypes| =>
      (PartTypes[k].0, PartProducts(PartTypes[k].0, Outcome(k, prompt, clientId, clientSecret, search))))
  }

  /** Entry `k` of the catalog: part `k` with what its search left it. */
  lemma CatalogAt(k: nat, prompt: string, clientId: string, clientSecret: string, search: string -> Reply)
    requires k < |PartTypes|
    ensures PartTypes[k].0 in ExampleProducts
    ensures var c := Catalog(prompt, clientId, clientSecret, search);
      |c| == |PartTypes| && c[k] == (PartTypes[k].0, PartProducts(PartTypes[k].0, Outcome(k, prompt, clientId, clientSecret, search)))
  {
    ExamplesCoverParts();
  }

  lemma PrefixSnoc<T>(s: seq<T>, k: nat)
    requires k < |s|
    ensures s[..k + 1] == s[..k] + [s[k]]
  {
  }

  /** Each part is present, in order, with between one and four products. */
  lemma CatalogCoversParts(prompt: string, clientId: string, clientSecret: string, search: string -> Reply)
    ensures var c := Catalog(prompt, clientId, clientSecret, search);
      && |c| == |PartTypes|
      && forall k :: 0 <= k < |c| ==> c[k].0 == PartTypes[k].0 && 1 <= |c[k].1| <= 4
  {
    var c := Catalog(prompt, clientId, clientSecret, search);
    forall k | 0 <= k < |c|
      ensures c[k].0 == PartTypes[k].0 && 1 <= |c[k].1| <= 4
    {
      var outcome := Outcome(k, prompt, clientId, clientSecret, search);
      if outcome.Ok? && outcome.value != [] {
        FetchBound(clientId, clientSecret, search(Query(PartTypes[k].1, prompt)), Limit);
      }
    }
  }

  /** Without credentials every part gets its stand-in and nothing else. */
  lemma NoCredentialsAllStandIns(prompt: string, clientSecret: string, search: string -> Reply)
    ensures var c := Catalog(prompt, [], clientSecret, search);
      forall k :: 0 <= k < |c| ==> c[k].1 == [StandIn(PartTypes[k].0)]
  {
  }

  /** Every example name has a space in it. */
  lemma ExamplesHaveSpaces()
    ensures forall k :: 0 <= k < |PartTypes| ==> ' ' in ExampleProducts[PartTypes[k].0]
  {
    assert ExampleProducts["CPU"][3] == ' ';
    assert ExampleProducts["메인보드"][4] == ' ';
    assert ExampleProducts["그래픽카드"][6] == ' ';
    assert ExampleProducts["메모리"][4] == ' ';
    assert ExampleProducts["SSD"][4] == ' ';
    assert ExampleProducts["파워서플라이"][6] == ' ';
    assert ExampleProducts["케이스"][4] == ' ';
  }

  /**
    A name appended as it is differs from the name `encodeURIComponent`
    writes when it has a character the encoding escapes, as every example
    name's space is.
  */
  lemma RawLinkNotEncoded(name: string)
    requires ' ' in name
    ensures SearchBase + name != SearchUrl(name)
  {
    var i :| 0 <= i < |name| && name[i] == ' ';
    var url := SearchUrl(name);
    assert (SearchBase + name)[|SearchBase| + i] == ' ';
    assert UriSafe(url[|SearchBase| + i]);
  }

  /** So the link of every stand-in differs from the search link the front end builds for the same name. */
  lemma StandInLinksNotEncoded()
    ensures forall k :: 0 <= k < |PartTypes| ==>
      StandIn(PartTypes[k].0).link != SearchUrl(ExampleProducts[PartTypes[k].0])
  {
    ExamplesHaveSpaces();
    forall k | 0 <= k < |PartTypes|
      ensures StandIn(PartTypes[k].0).link != SearchUrl(ExampleProducts[PartTypes[k].0])
    {
      RawLinkNotEncoded(ExampleProducts[PartTypes[k].0]);
    }
  }

  // ---------------------------------------------------------------------------
  // `all_products`

  function Tag(p: NaverProduct, part: string): TaggedProduct {
    TaggedProduct(p.name, p.price, p.link, part)
  }

  /** The copies the loop appends for one part. */
  function TagAll(ps: seq<NaverProduct>, part: string): (r: seq<TaggedProduct>)
    ensures |r| == |ps|
    ensures forall i :: 0 <= i < |ps| ==> r[i] == Tag(ps[i], part)
  {
    seq(|ps|, i requires 0 <= i < |ps| => Tag(ps[i], part))
  }

  /** `all_products`: every part's copies, in catalog order. */
  function Tagged(c: seq<(string, seq<NaverProduct>)>): seq<TaggedProduct> {
    if c == [] then [] else Tagged(c[..|c| - 1]) + TagAll(c[|c| - 1].1, c[|c| - 1].0)
  }

  /** Adding a part adds its copies at the end. */
  lemma TaggedSnoc(c: seq<(string, seq<NaverProduct>)>, x: (string, seq<NaverProduct>))
    ensures Tagged(c + [x]) == Tagged(c) + TagAll(x.1, x.0)
  {
    assert (c + [x])[..|c|] == c;
  }

  /** Tagging a concatenation tags each half. */
  lemma {:induction false} TaggedAppend(a: seq<(string, seq<NaverProduct>)>, b: seq<(string, seq<NaverProduct>)>)
    ensures Tagged(a + b) == Tagged(a) + Tagged(b)
  {
    if b == [] {
      assert a + b == a;
    } else {
      var init := b[..|b| - 1];
      var last := b[|b| - 1];
      var ab := a + b;
      assert ab[..|ab| - 1] == a + init;
      assert ab[|ab| - 1] == last;
      assert Tagged(ab) == Tagged(a + init) + TagAll(last.1, last.0);
      TaggedAppend(a, init);
      assert Tagged(b) == Tagged(init) + TagAll(last.1, last.0);
    }
  }

  /** A part added in front puts its copies in front. */
  lemma TaggedCons(x: (string, seq<NaverProduct>), c: seq<(string, seq<NaverProduct>)>)
    ensures Tagged([x] + c) == TagAll(x.1, x.0) + Tagged(c)
  {
    TaggedAppend([x], c);
    assert [x][..0] == [];
  }

  /**
    `all_products` is laid out part by part: the copies of the parts before
    `k`, then those of part `k` in its order, then those of the parts after.
  */
  lemma TaggedLayout(c: seq<(string, seq<NaverProduct>)>, k: nat)
    requires k < |c|
    ensures Tagged(c) == Tagged(c[..k]) + TagAll(c[k].1, c[k].0) + Tagged(c[k + 1..])
  {
    var pre, x, post := c[..k], c[k], c[k + 1..];
    assert c == pre + ([x] + post);
    var t1, t2, t3 := Tagged(pre), TagAll(x.1, x.0), Tagged(post);
    TaggedCons(x, post);
    TaggedAppend(pre, [x] + post);
    assert t1 + (t2 + t3) == t1 + t2 + t3;
  }

  // ---------------------------------------------------------------------------
  // `product_block`

  /** A candidate line: the number, a dot, the name, a dash, the price, and the link in parentheses after `링크:`. */
  function Line(idx: nat, p: NaverProduct): string {
    NatText(idx) + ". " + p.name + " - " + p.price + " (링크: " + p.link + ")"
  }

  /** The numbered lines of a part, counting from 1. */
  function Lines(ps: seq<NaverProduct>): (r: seq<string>)
    ensures |r| == |ps|
  {
    seq(|ps|, i requires 0 <= i < |ps| => Line(i + 1, ps[i]))
  }

  function Header(part: string): string {
    "[" + part + " 후보]\n"
  }

  /** A part's block: its header line, then its numbered lines separated by line breaks. */
  function Block(part: string, ps: seq<NaverProduct>): string {
    Header(part) + Join("\n", Lines(ps))
  }

  /** `product_block`: the blocks in catalog order with a blank line between neighbours. */
  function ProductBlock(c: seq<(string, seq<NaverProduct>)>): string {
    Join("\n\n", seq(|c|, k requires 0 <= k < |c| => Block(c[k].0, c[k].1)))
  }

  /** Each line's number reads back as its position counted from 1, and the line names the product, its price and its link. */
  lemma LineNumbering(ps: seq<NaverProduct>, i: nat)
    requires i < |ps|
    ensures var line := Lines(ps)[i]; var n := NatText(i + 1);
      && line[..|n|] == n && DigitsValue(n) == i + 1
      && line[|n|..] == ". " + ps[i].name + " - " + ps[i].price + " (링크: " + ps[i].link + ")"
  {
  }

  predicate IsPrefix(a: string, b: string) {
    |a| <= |b| && b[..|a|] == a
  }

  /** A join starts with its first piece. */
  lemma JoinPrefix(sep: string, pieces: seq<string>)
    requires pieces != []
    ensures IsPrefix(pieces[0], Join(sep, pieces))
  {
  }

  /** The candidate text opens with the first part's header and its first product as line 1. */
  lemma ProductBlockStart(c: seq<(string, seq<NaverProduct>)>)
    requires c != [] && c[0].1 != []
    ensures IsPrefix(Header(c[0].0) + Line(1, c[0].1[0]), ProductBlock(c))
  {
    var lines := Lines(c[0].1);
    var blocks := seq(|c|, k requires 0 <= k < |c| => Block(c[k].0, c[k].1));
    JoinPrefix("\n", lines);
    JoinPrefix("\n\n", blocks);
    var head := Header(c[0].0);
    var first := head + lines[0];
    var block := blocks[0];
    assert block == head + Join("\n", lines);
    assert block[..|first|] == first;
  }

  /** With the catalog of the handler, that is the CPU header and the first CPU product. */
  lemma ProductBlockStartsWithCpu(prompt: string, clientId: string, clientSecret: string, search: string -> Reply)
    ensures var c := Catalog(prompt, clientId, clientSecret, search);
      IsPrefix("[CPU 후보]\n" + Line(1, c[0].1[0]), ProductBlock(c))
  {
    var c := Catalog(prompt, clientId, clientSecret, search);
    CatalogAt(0, prompt, clientId, clientSecret, search);
    assert Header("CPU") == "[CPU 후보]\n";
    ProductBlockStart(c);
  }

  // ---------------------------------------------------------------------------
  // The response

  /** A response product built from name, price and link alone; the other fields keep their schema defaults. */
  function Project(p: TaggedProduct): ResponseProduct {
    ResponseProduct(p.name, p.price, p.link, None, None, None, true)
  }

  /** The product the table in the front end receives for a response product. */
  function AsTableProduct(p: ResponseProduct): ProductTable.Product {
    ProductTable.Product(p.name, p.price, p.link, p.mall, p.category, p.part, Some(p.required))
  }

  /**
    The response keeps the products' order, names, prices and links but
    drops the part tag, so a product table built from it files every
    product under `기타`, as one required group.
  */
  lemma ResponseLosesParts(all: seq<TaggedProduct>)
    requires all != []
    ensures var ps := seq(|all|, i requires 0 <= i < |all| => AsTableProduct(Project(all[i])));
      && ProductTable.Keys(ps) == [ProductTable.Other]
      && ProductTable.Group(ps, ProductTable.Other) == ps
      && ProductTable.Required(ps)
  {
    var ps := seq(|all|, i requires 0 <= i < |all| => AsTableProduct(Project(all[i])));
    AllOther(ps);
  }

  lemma {:induction false} AllOther(ps: seq<ProductTable.Product>)
    requires ps != [] && forall i :: 0 <= i < |ps| ==> ps[i].part.None?
    ensures ProductTable.Keys(ps) == [ProductTable.Other]
    ensures ProductTable.Group(ps, ProductTable.Other) == ps
  {
    var init := ps[..|ps| - 1];
    if init != [] {
      AllOther(init);
    }
    assert ps == init + [ps[|ps| - 1]];
  }

  // ---------------------------------------------------------------------------
  // The handler

  /** The search loop: `part_products` and `all_products`. */
  method CollectProducts(prompt: string, clientId: string, clientSecret: string, search: string -> Reply)
    returns (catalog: seq<(string, seq<NaverProduct>)>, allProducts: seq<TaggedProduct>)
    ensures catalog == Catalog(prompt, clientId, clientSecret, search)
    ensures allProducts == Tagged(catalog)
  {
    catalog := [];
    allProducts := [];
    for k := 0 to |PartTypes|
      invariant catalog == Catalog(prompt, clientId, clientSecret, search)[..k]
      invariant allProducts == Tagged(catalog)
    {
      catalog, allProducts := SearchStep(k, catalog, allProducts, prompt, clientId, clientSecret, search);
      PrefixSnoc(Catalog(prompt, clientId, clientSecret, search), k);
    }
    assert catalog == Catalog(prompt, clientId, clientSecret, search)[..|PartTypes|];
  }

  /** One turn of the search loop: part `k` and its copies appended. */
  method SearchStep(k: nat, catalog: seq<(string, seq<NaverProduct>)>, allProducts: seq<TaggedProduct>,
                    prompt: string, clientId: string, clientSecret: string, search: string -> Reply)
    returns (catalog': seq<(string, seq<NaverProduct>)>, allProducts': seq<TaggedProduct>)
    requires k < |PartTypes|
    requires allProducts == Tagged(catalog)
    ensures catalog' == catalog + [Catalog(prompt, clientId, clientSecret, search)[k]]
    ensures allProducts' == Tagged(catalog')
  {
    CatalogAt(k, prompt, clientId, clientSecret, search);
    var (part, queryName) := PartTypes[k];
    var products := SearchPart(part, queryName, prompt, clientId, clientSecret, search);
    var copies := TagProducts(products, part);
    TaggedSnoc(catalog, (part, products));
    allProducts' := allProducts + copies;
    catalog' := catalog + [(part, products)];
  }

  /** The products of a part, or its stand-in. */
  method SearchPart(part: string, queryName: string, prompt: string, clientId: string, clientSecret: string, search: string -> Reply)
    returns (products: seq<NaverProduct>)
    requires part in ExampleProducts
    ensures products == PartProducts(part, Fetch(clientId, clientSecret, search(Query(queryName, prompt)), Limit))
  {
    var outcome := FetchNaverProducts(clientId, clientSecret, search(Query(queryName, prompt)), Limit);
    if outcome.Ok? && outcome.value != [] {
      products := outcome.value;
    } else {
      // the `except` branch, and the `if not products` one
      products := [StandIn(part)];
    }
  }

  /** The inner loop: a copy of each product with `part` set. */
  method TagProducts(products: seq<NaverProduct>, part: string) returns (copies: seq<TaggedProduct>)
    ensures copies == TagAll(products, part)
  {
    copies := [];
    for i := 0 to |products|
      invariant copies == TagAll(products[..i], part)
    {
      copies := copies + [Tag(products[i], part)];
    }
    assert products[..|products|] == products;
  }

  /** One block: the header, then the numbered lines joined by line breaks. */
  method BlockText(part: string, products: seq<NaverProduct>) returns (block: string)
    ensures block == Block(part, products)
  {
    var lines: seq<string> := [];
    for i := 0 to |products|
      invariant lines == Lines(products[..i])
    {
      lines := lines + [Line(i + 1, products[i])];
    }
    assert products[..|products|] == products;
    block := Header(part) + Join("\n", lines);
  }

  /** `product_block`: the blocks of the parts in order, with a blank line between neighbours. */
  method BuildProductBlock(catalog: seq<(string, seq<NaverProduct>)>) returns (productBlock: string)
    ensures productBlock == ProductBlock(catalog)
  {
    var blocks: seq<string> := [];
    for k := 0 to |catalog|
      invariant blocks == seq(k, j requires 0 <= j < k => Block(catalog[j].0, catalog[j].1))
    {
      var block := BlockText(catalog[k].0, catalog[k].1);
      blocks := blocks + [block];
    }
    productBlock := Join("\n\n", blocks);
  }

  /**
    `recommend_pc` up to the recommendation call: the search loop, the
    candidate text, and the products of the response.
  */
  method RecommendPc(prompt: string, clientId: string, clientSecret: string, search: string -> Reply)
    returns (catalog: seq<(string, seq<NaverProduct>)>, allProducts: seq<TaggedProduct>, productBlock: string, response: seq<ResponseProduct>)
    ensures catalog == Catalog(prompt, clientId, clientSecret, search)
    ensures allProducts == Tagged(catalog)
    ensures productBlock == ProductBlock(catalog)
    ensures |response| == |allProducts| && forall i :: 0 <= i < |response| ==> response[i] == Project(allProducts[i])
  {
    catalog, allProducts := CollectProducts(prompt, clientId, clientSecret, search);
    productBlock := BuildProductBlock(catalog);
    response := seq(|allProducts|, i requires 0 <= i < |allProducts| => Project(allProducts[i]));
  }
}
