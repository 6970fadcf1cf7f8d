/**
  The shopping-search client of the back end: a missing credential fails
  before any request, and each result item becomes a product whose name has
  the `<b>` highlight tags removed, whose price is the lowest price with
  thousands separators and `원`, and whose link falls back to `#`.
*/
module NaverService {
  import opened Wrappers
  import opened Text

  /** A result item as the loop reads it: each of its three fields may be missing. */
  datatype Item = Item(title: Option<string>, lprice: Option<string>, link: Option<string>)

  /** What the search request gave back: a failure (transport error or error status), or the reply's `items`, if any. */
  datatype Reply = Failed | Replied(items: Option<seq<Item>>)

  /** A normalised product: `{"name", "price", "link"}`. */
  datatype NaverProduct = NaverProduct(name: string, price: string, link: string)

  /** The exceptions `fetch_naver_products` raises. */
  datatype Failure = MissingCredentials | RequestFailed | BadPrice

  // ---------------------------------------------------------------------------
  // `str.replace(p, "")`

  /** `s.replace(p, "")`: every occurrence of `p`, found left to right without overlap, deleted. */
  function RemoveAll(s: string, p: string): (r: string)
    requires p != []
    ensures |r| <= |s|
    decreases |s|
  {
    if |s| < |p| then s
    else if s[..|p|] == p then RemoveAll(s[|p|..], p)
    else [s[0]] + RemoveAll(s[1..], p)
  }

  /** `s.split(p)`: the pieces between the occurrences `RemoveAll` deletes. */
  function Split(s: string, p: string): (pieces: seq<string>)
    requires p != []
    ensures pieces != []
    decreases |s|
  {
    if |s| < |p| then [s]
    else if s[..|p|] == p then [[]] + Split(s[|p|..], p)
    else
      var rest := Split(s[1..], p);
      [[s[0]] + rest[0]] + rest[1..]
  }

  lemma JoinCons(sep: string, head: string, rest: seq<string>)
    requires rest != []
    ensures Join(sep, [head] + rest) == head + sep + Join(sep, rest)
  {
    assert ([head] + rest)[1..] == rest;
  }

  lemma JoinExtendFirst(sep: string, c: char, pieces: seq<string>)
    requires pieces != []
    ensures Join(sep, [[c] + pieces[0]] + pieces[1..]) == [c] + Join(sep, pieces)
  {
    if |pieces| > 1 {
      JoinCons(sep, [c] + pieces[0], pieces[1..]);
      JoinCons(sep, pieces[0], pieces[1..]);
      assert pieces == [pieces[0]] + pieces[1..];
    } else {
      assert [[c] + pieces[0]] + pieces[1..] == [[c] + pieces[0]];
    }
  }

  /** Joining the pieces with `p` gives back `s`: `p.join(s.split(p)) == s`. */
  lemma {:induction false} SplitJoin(s: string, p: string)
    requires p != []
    ensures Join(p, Split(s, p)) == s
    decreases |s|
  {
    if |s| < |p| {
    } else if s[..|p|] == p {
      var rest := Split(s[|p|..], p);
      assert Split(s, p) == [[]] + rest;
      SplitJoin(s[|p|..], p);
      JoinCons(p, [], rest);
      assert s == p + s[|p|..];
    } else {
      var rest := Split(s[1..], p);
      assert Split(s, p) == [[s[0]] + rest[0]] + rest[1..];
      SplitJoin(s[1..], p);
      JoinExtendFirst(p, s[0], rest);
      assert s == [s[0]] + s[1..];
    }
  }

  /** Deleting `p` is joining the pieces with nothing between them: `s.replace(p, "") == "".join(s.split(p))`. */
  lemma {:induction false} RemoveAllIsJoin(s: string, p: string)
    requires p != []
    ensures RemoveAll(s, p) == Join([], Split(s, p))
    decreases |s|
  {
    if |s| < |p| {
    } else if s[..|p|] == p {
      RemoveAllIsJoin(s[|p|..], p);
      JoinCons([], [], Split(s[|p|..], p));
    } else {
      RemoveAllIsJoin(s[1..], p);
      JoinExtendFirst([], s[0], Split(s[1..], p));
    }
  }

  /** A text in which `p` occurs nowhere is left as it is. */
  lemma {:induction false} RemoveAllAbsent(s: string, p: string)
    requires p != []
    requires forall i :: 0 <= i <= |s| ==> !OccursAt(s, p, i)
    ensures RemoveAll(s, p) == s
    decreases |s|
  {
    if |s| >= |p| {
      assert !OccursAt(s, p, 0);
      forall i | 0 <= i <= |s[1..]|
        ensures !OccursAt(s[1..], p, i)
      {
        assert !OccursAt(s, p, i + 1);
        if i + |p| <= |s[1..]| {
          assert s[1..][i..i + |p|] == s[i + 1..i + 1 + |p|];
        }
      }
      RemoveAllAbsent(s[1..], p);
      assert s == [s[0]] + s[1..];
    }
  }

  /** Deleting a single character distributes over concatenation. */
  lemma {:induction false} RemoveCharAppend(a: string, b: string, c: char)
    ensures RemoveAll(a + b, [c]) == RemoveAll(a, [c]) + RemoveAll(b, [c])
  {
    if a != [] {
      RemoveCharAppend(a[1..], b, c);
      assert (a + b)[1..] == a[1..] + b;
      assert (a + b)[..1] == a[..1];
    } else {
      assert a + b == b;
    }
  }

  /** A text without the character is left as it is. */
  lemma {:induction false} RemoveCharAbsent(s: string, c: char)
    requires forall i :: 0 <= i < |s| ==> s[i] != c
    ensures RemoveAll(s, [c]) == s
  {
    if s != [] {
      RemoveCharAbsent(s[1..], c);
      assert s[..1] == [s[0]];
    }
  }

  // ---------------------------------------------------------------------------
  // Integer parsing and the thousands-grouped price text

  /** `int(s)` for a text: optional surrounding whitespace, an optional sign, then decimal digits. */
  function ParseInt(s: string): Option<int> {
    ParseSigned(Trim(s))
  }

  /** An optional sign, then one or more decimal digits. */
  function ParseSigned(t: string): Option<int> {
    if t != [] && (t[0] == '-' || t[0] == '+') then
      if t[1..] != [] && AllDigits(t[1..]) then
        var v: int := DigitsValue(t[1..]);
        Some(if t[0] == '-' then -v else v)
      else None
    else if t != [] && AllDigits(t) then Some(DigitsValue(t))
    else None
  }

  /** Decimal digits with a comma before every group of three counted from the right, as the `,` format gives them. */
  function Grouped(ds: string): (r: string)
    ensures |r| == |ds| + (if ds == [] then 0 else (|ds| - 1) / 3)
    decreases |ds|
  {
    if |ds| <= 3 then ds else Grouped(ds[..|ds| - 3]) + "," + ds[|ds| - 3..]
  }

  /** A number with comma thousands separators: the sign, then the digits of `|n|` grouped by three. */
  function Thousands(n: int): string {
    if n < 0 then "-" + Grouped(NatText(-n)) else Grouped(NatText(n))
  }

  /** The price text of the loop: the grouped number followed by `원`. */
  function PriceText(n: int): string {
    Thousands(n) + "원"
  }

  /** Deleting the commas from grouped digits gives the digits back. */
  lemma {:induction false} UngroupGrouped(ds: string)
    requires AllDigits(ds)
    ensures RemoveAll(Grouped(ds), ",") == ds
    decreases |ds|
  {
    if |ds| <= 3 {
      RemoveCharAbsent(ds, ',');
    } else {
      var front, back := ds[..|ds| - 3], ds[|ds| - 3..];
      UngroupGrouped(front);
      RemoveCharAppend(Grouped(front) + ",", back, ',');
      RemoveCharAppend(Grouped(front), ",", ',');
      RemoveCharAbsent(back, ',');
      assert ds == front + back;
    }
  }

  lemma TrimDigits(s: string)
    requires s != [] && forall i :: 0 <= i < |s| ==> s[i] == '-' || IsDigit(s[i])
    ensures Trim(s) == s
  {
    assert !IsSpace(s[0]) && !IsSpace(s[|s| - 1]);
    assert TrimStart(s) == s;
  }

  /** `int` reads digits as their value. */
  lemma ParseDigits(ds: string)
    requires ds != [] && AllDigits(ds)
    ensures ParseInt(ds) == Some(DigitsValue(ds) as int)
  {
    TrimDigits(ds);
    assert IsDigit(ds[0]);
  }

  /** `int` reads a minus sign and digits as the negated value. */
  lemma ParseNegative(ds: string)
    requires ds != [] && AllDigits(ds)
    ensures ParseInt("-" + ds) == Some(-(DigitsValue(ds) as int))
  {
    var t := "-" + ds;
    assert t[1..] == ds;
    assert forall i :: 0 < i < |t| ==> t[i] == ds[i - 1];
    TrimDigits(t);
  }

  /** A grouped number read back: with the commas deleted, integer parsing gives the number again. */
  lemma ThousandsRoundTrip(n: int)
    ensures ParseInt(RemoveAll(Thousands(n), ",")) == Some(n)
  {
    if n < 0 {
      var ds := NatText(-n);
      UngroupGrouped(ds);
      RemoveCharAppend("-", Grouped(ds), ',');
      RemoveCharAbsent("-", ',');
      assert RemoveAll(Thousands(n), ",") == "-" + ds;
      ParseNegative(ds);
    } else {
      var ds := NatText(n);
      UngroupGrouped(ds);
      ParseDigits(ds);
    }
  }

  /** The price text read back: dropping `원` and the commas and applying `int` gives the number again. */
  lemma PriceRoundTrip(n: int)
    ensures var t := PriceText(n);
      && |t| > 1 && t[|t| - 1..] == "원"
      && ParseInt(RemoveAll(t[..|t| - 1], ",")) == Some(n)
  {
    var t := PriceText(n);
    assert t[..|t| - 1] == Thousands(n);
    ThousandsRoundTrip(n);
  }

  lemma PriceExample()
    ensures PriceText(1234) == "1,234원"
    ensures PriceText(0) == "0원"
  {
    assert NatText(12) == "12";
    assert NatText(1234) == "1234";
  }

  // ---------------------------------------------------------------------------
  // One item

  const NoName: string := "이름 없음"
  const NoLink: string := "#"

  /** The name of an item: the title, or `이름 없음` when it is missing, with every `<b>` and then every `</b>` deleted. */
  function ItemName(item: Item): string {
    RemoveAll(RemoveAll(if item.title.Some? then item.title.value else NoName, "<b>"), "</b>")
  }

  /** The body of the loop for one item; `int` rejects a price that is not an integer. */
  function NormalizeItem(item: Item): (r: Result<NaverProduct, Failure>)
    ensures r.Err? <==> item.lprice.Some? && ParseInt(item.lprice.value).None?
    ensures r.Err? ==> r.error == BadPrice
    ensures r.Ok? ==> r.value.name == ItemName(item)
    ensures r.Ok? && item.lprice.None? ==> r.value.price == "0원"
    ensures r.Ok? && item.lprice.Some? ==> r.value.price == PriceText(ParseInt(item.lprice.value).value)
    ensures r.Ok? ==> r.value.link == if item.link.Some? then item.link.value else NoLink
  {
    var price := if item.lprice.None? then Some(0) else ParseInt(item.lprice.value);
    if price.None? then Err(BadPrice)
    else
      var link := if item.link.Some? then item.link.value else NoLink;
      assert NatText(0) == "0";
      Ok(NaverProduct(ItemName(item), PriceText(price.value), link))
  }

  /** The highlight tags are deleted in two single passes, so a title can still show `<b>` afterwards. */
  lemma TagsCanSurvive()
    ensures ItemName(Item(Some("<<b>b>"), None, None)) == "<b>"
  {
    assert RemoveAll("<<b>b>", "<b>") == "<b>";
    assert RemoveAll("<b>", "</b>") == "<b>";
  }

  /** A title with no `<` keeps its text. */
  lemma PlainTitleKept(title: string)
    requires forall i :: 0 <= i < |title| ==> title[i] != '<'
    ensures ItemName(Item(Some(title), None, None)) == title
  {
    forall i | 0 <= i <= |title|
      ensures !OccursAt(title, "<b>", i) && !OccursAt(title, "</b>", i)
    {
      if i < |title| {
        assert title[i] != '<';
      }
    }
    RemoveAllAbsent(title, "<b>");
    RemoveAllAbsent(title, "</b>");
  }

  // ---------------------------------------------------------------------------
  // The whole call

  /** `seq[:limit]` in Python: the first `limit` elements, or all but the last `-limit` when `limit` is negative. */
  function Head<T>(s: seq<T>, limit: int): (r: seq<T>)
    ensures limit >= 0 ==> |r| == if limit < |s| then limit else |s|
    ensures limit < 0 ==> |r| == if -limit < |s| then |s| + limit else 0
    ensures |r| <= |s| && r == s[..|r|]
  {
    if limit >= 0 then (if limit < |s| then s[..limit] else s)
    else if -limit < |s| then s[..|s| + limit] else []
  }

  /** The items the loop visits: the first `limit` items of the reply, none when it has no item list. */
  function Visited(items: Option<seq<Item>>, limit: int): seq<Item> {
    Head(if items.Some? then items.value else [], limit)
  }

  /** The products of the visited items in order, or the error of the first item `int` rejects. */
  function NormalizeAll(items: seq<Item>): Result<seq<NaverProduct>, Failure> {
    if items == [] then Ok([])
    else match NormalizeItem(items[0])
      case Err(e) => Err(e)
      case Ok(p) =>
        match NormalizeAll(items[1..])
        case Err(e) => Err(e)
        case Ok(ps) => Ok([p] + ps)
  }

  /** What `fetch_naver_products` returns or raises. */
  function Fetch(clientId: string, clientSecret: string, reply: Reply, limit: int): Result<seq<NaverProduct>, Failure> {
    if clientId == [] || clientSecret == [] then Err(MissingCredentials)
    else if reply.Failed? then Err(RequestFailed)
    else NormalizeAll(Visited(reply.items, limit))
  }

  /** Normalisation succeeds exactly when `int` accepts every visited item's price. */
  lemma {:induction false} NormalizeAllOk(items: seq<Item>)
    ensures NormalizeAll(items).Ok? <==> forall i :: 0 <= i < |items| ==> NormalizeItem(items[i]).Ok?
  {
    if items != [] {
      var rest := items[1..];
      NormalizeAllOk(rest);
      if NormalizeItem(items[0]).Ok? && NormalizeAll(rest).Err? {
        var i :| 0 <= i < |rest| && !NormalizeItem(rest[i]).Ok?;
        assert items[i + 1] == rest[i];
      }
      if NormalizeAll(items).Ok? {
        forall i | 0 < i < |items|
          ensures NormalizeItem(items[i]).Ok?
        {
          assert items[i] == rest[i - 1];
        }
      }
    }
  }

  /** It keeps one product per item, in item order, each the item's own normalisation. */
  lemma {:induction false} NormalizeAllValues(items: seq<Item>)
    requires NormalizeAll(items).Ok?
    ensures var ps := NormalizeAll(items).value;
      |ps| == |items| && forall i :: 0 <= i < |items| ==> NormalizeItem(items[i]) == Ok(ps[i])
  {
    if items != [] {
      var rest := items[1..];
      NormalizeAllValues(rest);
      var ps := NormalizeAll(items).value;
      assert ps == [NormalizeItem(items[0]).value] + NormalizeAll(rest).value;
      forall i | 0 < i < |items|
        ensures NormalizeItem(items[i]) == Ok(ps[i])
      {
        assert items[i] == rest[i - 1];
      }
    }
  }

  /** A missing credential fails before the reply is looked at, whatever it would have been. */
  lemma CredentialsFirst(clientSecret: string, reply: Reply, limit: int)
    ensures Fetch([], clientSecret, reply, limit) == Err(MissingCredentials)
    ensures Fetch(clientSecret, [], reply, limit) == Err(MissingCredentials)
  {
  }

  /** At most `limit` products come back, in reply order. */
  lemma FetchBound(clientId: string, clientSecret: string, reply: Reply, limit: int)
    requires Fetch(clientId, clientSecret, reply, limit).Ok?
    ensures reply.Replied?
    ensures var ps := Fetch(clientId, clientSecret, reply, limit).value; var vs := Visited(reply.items, limit);
      && |ps| == |vs| && (limit >= 0 ==> |ps| <= limit)
      && forall i :: 0 <= i < |ps| ==> NormalizeItem(vs[i]) == Ok(ps[i])
  {
    NormalizeAllValues(Visited(reply.items, limit));
  }

  /** `ps` in front of what the remaining items give, or the error they raise. */
  function Prefixed(ps: seq<NaverProduct>, rest: Result<seq<NaverProduct>, Failure>): Result<seq<NaverProduct>, Failure> {
    match rest
    case Ok(qs) => Ok(ps + qs)
    case Err(e) => Err(e)
  }

  lemma PrefixedNothing(r: Result<seq<NaverProduct>, Failure>)
    ensures Prefixed([], r) == r
  {
    if r.Ok? {
      assert [] + r.value == r.value;
    }
  }

  lemma PrefixedTwice(ps: seq<NaverProduct>, qs: seq<NaverProduct>, r: Result<seq<NaverProduct>, Failure>)
    ensures Prefixed(ps, Prefixed(qs, r)) == Prefixed(ps + qs, r)
  {
    if r.Ok? {
      assert ps + (qs + r.value) == (ps + qs) + r.value;
    }
  }

  lemma NormalizeStep(items: seq<Item>, i: nat)
    requires i < |items|
    ensures NormalizeAll(items[i..]) ==
      match NormalizeItem(items[i])
      case Err(e) => Err(e)
      case Ok(p) => Prefixed([p], NormalizeAll(items[i + 1..]))
  {
    assert items[i..][1..] == items[i + 1..];
  }

  /** `fetch_naver_products`: the credential check, then the loop that appends one product per visited item. */
  method FetchNaverProducts(clientId: string, clientSecret: string, reply: Reply, limit: int)
    returns (r: Result<seq<NaverProduct>, Failure>)
    ensures r == Fetch(clientId, clientSecret, reply, limit)
  {
    if clientId == [] || clientSecret == [] {
      return Err(MissingCredentials);
    }
    if reply.Failed? {
      return Err(RequestFailed);
    }
    var items := Visited(reply.items, limit);
    var products: seq<NaverProduct> := [];
    assert items[0..] == items;
    PrefixedNothing(NormalizeAll(items));
    for i := 0 to |items|
      invariant NormalizeAll(items) == Prefixed(products, NormalizeAll(items[i..]))
    {
      NormalizeStep(items, i);
      var p := NormalizeItem(items[i]);
      if p.Err? {
        return Err(p.error);
      }
      PrefixedTwice(products, [p.value], NormalizeAll(items[i + 1..]));
      products := products + [p.value];
    }
    assert products + [] == products;
    return Ok(products);
  }
}
