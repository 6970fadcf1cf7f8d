/**
  The assistant bubble of the chat view. The reply text, already run through
  `JSON.parse`, is read in one of four shapes tried in a fixed order; then
  every candidate's link is replaced by the link of the same-part catalog
  product whose name scores highest against the candidate's name, or by a
  shopping-search URL for that name. Any exception on the way only sets the
  parse-error flag.
*/
module ChatMessage {
  import opened Wrappers
  import opened Text
  import opened Json
  import opened Uri
  import opened Similarity

  /** A catalog product as the view receives it; `part` is `None` where the server sends `null`. */
  datatype Product = Product(part: Option<string>, name: string, link: string)

  datatype Role = User | Assistant

  datatype Message = Message(role: Role, text: string)

  /** A candidate after the rewrite, the object `{...source, link}`: every field but `link` is `source`'s. */
  datatype Candidate = Candidate(source: Value, link: string)

  /** A part after the rewrite, the object `{...source, candidates}`. */
  datatype Part = Part(source: Value, candidates: seq<Candidate>)

  /** What the bubble shows. `Failed` is the fixed "cannot understand the reply" text. */
  datatype View =
    | UserText(text: string)
    | Loading
    | Failed
    | Parts(parts: seq<Part>, warning: Value)

  const LoadingText: string := "AI가 답변을 작성 중입니다..."

  // ---------------------------------------------------------------------------
  // Shape selection

  /** The parts list and the warning chosen from the parsed reply. */
  datatype Selection = Selection(parts: seq<Value>, warning: Value)

  /** `parsed.warning || ""`. */
  function WarningOf(parsed: Value): Value
    requires !parsed.Null?
  {
    var w := Member(parsed, "warning");
    if Truthy(w) then w.value else Str("")
  }

  /** A value that is an object whose `candidates` field is an array. */
  predicate HasCandidates(v: Value) {
    v.Obj? && IsArray(Member(v, "candidates"))
  }

  /** The object's values, in key order, that are objects with a candidates array. */
  function PartValues(fields: seq<(string, Value)>): (r: seq<Value>)
    ensures forall i :: 0 <= i < |r| ==> HasCandidates(r[i])
    ensures forall i :: 0 <= i < |fields| && HasCandidates(fields[i].1) ==> fields[i].1 in r
    ensures forall v :: v in r ==> exists i :: 0 <= i < |fields| && fields[i].1 == v
  {
    if fields == [] then []
    else
      var rest := PartValues(fields[1..]);
      assert forall i :: 1 <= i < |fields| ==> fields[i] == fields[1..][i - 1];
      (if HasCandidates(fields[0].1) then [fields[0].1] else []) + rest
  }

  /** The values filter keeps key order: filtering two runs of entries filters each and concatenates. */
  lemma {:induction false} PartValuesAppend(a: seq<(string, Value)>, b: seq<(string, Value)>)
    ensures PartValues(a + b) == PartValues(a) + PartValues(b)
  {
    if a != [] {
      PartValuesAppend(a[1..], b);
      assert (a + b)[1..] == a[1..] + b;
    } else {
      assert a + b == b;
    }
  }

  /** The key-labelled parts: each entry whose value has a candidates array becomes a part labelled by its key. */
  function KeyedParts(fields: seq<(string, Value)>): seq<Value> {
    if fields == [] then []
    else
      var (key, value) := fields[0];
      var cands := if value.Null? then None else Member(value, "candidates");
      (if IsArray(cands) then [Obj([("part", Str(key)), ("candidates", cands.value)])] else [])
      + KeyedParts(fields[1..])
  }

  /**
    The shapes in the order they are tried: a top-level array is the parts
    list; else an array `parts` field is, with the warning copied; else an
    object with a truthy `part` and an array `candidates` is the only part;
    else the object's values that have a candidates array are the parts,
    with the warning copied. Any other non-null value yields no parts;
    `null` throws (`None`).
  */
  function Select(parsed: Value): Option<Selection> {
    match parsed
    case Null => None
    case Arr(items) => Some(Selection(items, Str("")))
    case Obj(fields) =>
      var parts := Member(parsed, "parts");
      if IsArray(parts) then Some(Selection(parts.value.items, WarningOf(parsed)))
      else if Truthy(Member(parsed, "part")) && IsArray(Member(parsed, "candidates")) then Some(Selection([parsed], Str("")))
      else Some(Selection(PartValues(fields), WarningOf(parsed)))
    case _ => Some(Selection([], Str("")))
  }

  /**
    The key-labelled fallback never adds a part: a value passes its filter
    only if it passes the values filter, so it runs only when there is
    nothing to find.
  */
  lemma {:induction false} KeyedPartsFollowValues(fields: seq<(string, Value)>)
    ensures |KeyedParts(fields)| == |PartValues(fields)|
  {
    if fields != [] {
      KeyedPartsFollowValues(fields[1..]);
    }
  }

  /** A dictionary of parts: when every value has a candidates array, the values are the parts in key order and the keys are dropped. */
  lemma {:induction false} DictionaryValuesAreParts(fields: seq<(string, Value)>)
    requires forall i :: 0 <= i < |fields| ==> HasCandidates(fields[i].1)
    ensures PartValues(fields) == seq(|fields|, i requires 0 <= i < |fields| => fields[i].1)
  {
    if fields != [] {
      DictionaryValuesAreParts(fields[1..]);
    }
  }

  // ---------------------------------------------------------------------------
  // Matching a candidate against the catalog

  /** The value of `prod.part` as JavaScript sees it. */
  function PartValue(p: Product): Option<Value> {
    if p.part.None? then Some(Null) else Some(Str(p.part.value))
  }

  /** `prod.part === part.part`. */
  predicate SamePart(p: Product, groupPart: Option<Value>) {
    StrictEquals(PartValue(p), groupPart)
  }

  predicate HasSamePart(catalog: seq<Product>, groupPart: Option<Value>) {
    exists i :: 0 <= i < |catalog| && SamePart(catalog[i], groupPart)
  }

  /** `best` is the earliest same-part product with the highest score, or `None` when there is no same-part product. */
  ghost predicate IsEarliestBest(catalog: seq<Product>, groupPart: Option<Value>, name: string, best: Option<nat>) {
    match best
    case None => !HasSamePart(catalog, groupPart)
    case Some(k) =>
      && k < |catalog| && SamePart(catalog[k], groupPart)
      && (forall i :: 0 <= i < |catalog| && SamePart(catalog[i], groupPart) ==>
            Score(catalog[i].name, name) <= Score(catalog[k].name, name))
      && (forall i :: 0 <= i < k && SamePart(catalog[i], groupPart) ==>
            Score(catalog[i].name, name) < Score(catalog[k].name, name))
  }

  /** The running best over the catalog in order: a product replaces the best so far only with a strictly higher score. */
  function BestMatch(catalog: seq<Product>, groupPart: Option<Value>, name: string): (best: Option<nat>)
    ensures best.Some? ==> best.value < |catalog|
  {
    if catalog == [] then None
    else
      var prev := BestMatch(catalog[..|catalog| - 1], groupPart, name);
      var last := catalog[|catalog| - 1];
      if SamePart(last, groupPart) && (prev.None? || Score(last.name, name) > Score(catalog[prev.value].name, name))
      then Some(|catalog| - 1)
      else prev
  }

  lemma {:induction false} BestMatchIsEarliestBest(catalog: seq<Product>, groupPart: Option<Value>, name: string)
    ensures IsEarliestBest(catalog, groupPart, name, BestMatch(catalog, groupPart, name))
  {
    if catalog != [] {
      var n := |catalog| - 1;
      BestMatchIsEarliestBest(catalog[..n], groupPart, name);
      var prev := BestMatch(catalog[..n], groupPart, name);
      var last := catalog[n];
      if SamePart(last, groupPart) && (prev.None? || Score(last.name, name) > Score(catalog[prev.value].name, name)) {
        assert BestMatch(catalog, groupPart, name) == Some(n);
        LastBecomesBest(catalog, groupPart, name, prev);
      } else {
        assert BestMatch(catalog, groupPart, name) == prev;
        BestSoFarStays(catalog, groupPart, name, prev);
      }
    }
  }

  /** The last product is the earliest best when it is eligible and beats the best of the others strictly. */
  lemma LastBecomesBest(catalog: seq<Product>, groupPart: Option<Value>, name: string, prev: Option<nat>)
    requires catalog != [] && IsEarliestBest(catalog[..|catalog| - 1], groupPart, name, prev)
    requires var last := catalog[|catalog| - 1];
      SamePart(last, groupPart) && (prev.None? || Score(last.name, name) > Score(catalog[prev.value].name, name))
    ensures IsEarliestBest(catalog, groupPart, name, Some(|catalog| - 1))
  {
    var n := |catalog| - 1;
    var init := catalog[..n];
    var top := Score(catalog[n].name, name);
    forall i | 0 <= i < n && SamePart(catalog[i], groupPart)
      ensures Score(catalog[i].name, name) < top
    {
      assert init[i] == catalog[i] && SamePart(init[i], groupPart);
      assert HasSamePart(init, groupPart);
      var k := prev.value;
      assert init[k] == catalog[k];
      assert Score(init[i].name, name) <= Score(init[k].name, name);
    }
    assert forall i :: 0 <= i < |catalog| && SamePart(catalog[i], groupPart) ==> Score(catalog[i].name, name) <= top;
  }

  /** Otherwise the best of the others stays the earliest best. */
  lemma BestSoFarStays(catalog: seq<Product>, groupPart: Option<Value>, name: string, prev: Option<nat>)
    requires catalog != [] && IsEarliestBest(catalog[..|catalog| - 1], groupPart, name, prev)
    requires var last := catalog[|catalog| - 1];
      !(SamePart(last, groupPart) && (prev.None? || Score(last.name, name) > Score(catalog[prev.value].name, name)))
    ensures IsEarliestBest(catalog, groupPart, name, prev)
  {
    var n := |catalog| - 1;
    var init := catalog[..n];
    assert forall i :: 0 <= i < n ==> init[i] == catalog[i];
    if prev.None? {
      forall i | 0 <= i < |catalog|
        ensures !SamePart(catalog[i], groupPart)
      {
        if i < n {
          assert init[i] == catalog[i];
        }
      }
    }
  }

  /** The forEach loop of the matcher: `bestScore` starts at -1 and every score is at least 0. */
  method FindBestMatch(catalog: seq<Product>, groupPart: Option<Value>, name: string) returns (best: Option<nat>)
    ensures best == BestMatch(catalog, groupPart, name)
    ensures IsEarliestBest(catalog, groupPart, name, best)
    ensures best.Some? <==> HasSamePart(catalog, groupPart)
  {
    best := None;
    var bestScore := -1;
    for i := 0 to |catalog|
      invariant best == BestMatch(catalog[..i], groupPart, name)
      invariant best.None? ==> bestScore == -1
      invariant best.Some? ==> best.value < i && bestScore == Score(catalog[best.value].name, name)
    {
      var prod := catalog[i];
      assert catalog[..i + 1][..i] == catalog[..i];
      if SamePart(prod, groupPart) {
        var score := GetSimilarity(prod.name, name);
        ScoreBands(prod.name, name);
        if score > bestScore {
          bestScore := score;
          best := Some(i);
        }
      }
    }
    assert catalog[..|catalog|] == catalog;
    BestMatchIsEarliestBest(catalog, groupPart, name);
  }

  // ---------------------------------------------------------------------------
  // The link rewrite

  /**
    The rewritten link: the best match's link when it is non-empty, else the
    search URL for the candidate's name. `None` where the source throws:
    reading `name` of a `null` candidate, or scoring a name that is not a
    string against a same-part product.
  */
  function LinkCandidate(catalog: seq<Product>, groupPart: Option<Value>, cand: Value): Option<Candidate> {
    if cand.Null? then None
    else
      var name := Member(cand, "name");
      if HasSamePart(catalog, groupPart) && !(name.Some? && name.value.Str?) then None
      else
        var text := ToJsString(name);
        var best := BestMatch(catalog, groupPart, text);
        var link := if best.Some? && catalog[best.value].link != "" then catalog[best.value].link else SearchUrl(text);
        Some(Candidate(cand, link))
  }

  /** Maps `f` over `xs` from left to right; the first `None` (an exception) abandons the whole map. */
  function MapAll<A, B>(f: A -> Option<B>, xs: seq<A>): Option<seq<B>> {
    if xs == [] then Some([])
    else
      match MapAll(f, xs[..|xs| - 1])
      case None => None
      case Some(done) =>
        match f(xs[|xs| - 1])
        case None => None
        case Some(y) => Some(done + [y])
  }

  /** The map succeeds exactly when every element does, and then holds their results in order. */
  lemma {:induction false} MapAllPointwise<A, B>(f: A -> Option<B>, xs: seq<A>)
    ensures MapAll(f, xs).Some? <==> forall j :: 0 <= j < |xs| ==> f(xs[j]).Some?
    ensures MapAll(f, xs).Some? ==>
      |MapAll(f, xs).value| == |xs| && forall j :: 0 <= j < |xs| ==> Some(MapAll(f, xs).value[j]) == f(xs[j])
  {
    if xs != [] {
      var init := xs[..|xs| - 1];
      MapAllPointwise(f, init);
      assert forall j :: 0 <= j < |init| ==> init[j] == xs[j];
    }
  }

  function LinkCandidates(catalog: seq<Product>, groupPart: Option<Value>, cands: seq<Value>): Option<seq<Candidate>> {
    MapAll(c => LinkCandidate(catalog, groupPart, c), cands)
  }

  /** `part.candidates.map(...)` throws unless the part is an object with a candidates array. */
  function LinkPart(catalog: seq<Product>, part: Value): Option<Part> {
    if !HasCandidates(part) then None
    else
      match LinkCandidates(catalog, Member(part, "part"), Member(part, "candidates").value.items)
      case None => None
      case Some(cs) => Some(Part(part, cs))
  }

  function LinkParts(catalog: seq<Product>, parts: seq<Value>): Option<seq<Part>> {
    MapAll(p => LinkPart(catalog, p), parts)
  }

  /** What the bubble shows for a message whose text `JSON.parse` turned into `parsed` (`None`: a syntax error). */
  function Interpretation(message: Message, parsed: Option<Value>, catalog: seq<Product>): View {
    if message.role == User then UserText(message.text)
    else if message.text == LoadingText then Loading
    else if parsed.None? then Failed
    else
      match Select(parsed.value)
      case None => Failed
      case Some(sel) =>
        match LinkParts(catalog, sel.parts)
        case None => Failed
        case Some(ps) => Parts(ps, sel.warning)
  }

  // ---------------------------------------------------------------------------
  // The component, step by step

  /** One `candidates.map` callback: the forEach matcher, then `bestMatch?.link || searchUrl`. */
  method ResolveCandidate(catalog: seq<Product>, groupPart: Option<Value>, cand: Value) returns (r: Option<Candidate>)
    ensures r == LinkCandidate(catalog, groupPart, cand)
  {
    if cand.Null? {
      return None;
    }
    var name := Member(cand, "name");
    if !(name.Some? && name.value.Str?) && HasSamePart(catalog, groupPart) {
      return None;
    }
    var text := ToJsString(name);
    var best := FindBestMatch(catalog, groupPart, text);
    var link := if best.Some? && catalog[best.value].link != "" then catalog[best.value].link else SearchUrl(text);
    return Some(Candidate(cand, link));
  }

  lemma LinkCandidatesPointwise(catalog: seq<Product>, groupPart: Option<Value>, cands: seq<Value>)
    ensures LinkCandidates(catalog, groupPart, cands).Some? <==>
      forall j :: 0 <= j < |cands| ==> LinkCandidate(catalog, groupPart, cands[j]).Some?
    ensures LinkCandidates(catalog, groupPart, cands).Some? ==>
      var cs := LinkCandidates(catalog, groupPart, cands).value;
      |cs| == |cands| && forall j :: 0 <= j < |cands| ==> Some(cs[j]) == LinkCandidate(catalog, groupPart, cands[j])
  {
    MapAllPointwise(c => LinkCandidate(catalog, groupPart, c), cands);
  }

  lemma LinkPartsPointwise(catalog: seq<Product>, parts: seq<Value>)
    ensures LinkParts(catalog, parts).Some? <==> forall i :: 0 <= i < |parts| ==> LinkPart(catalog, parts[i]).Some?
    ensures LinkParts(catalog, parts).Some? ==>
      var ps := LinkParts(catalog, parts).value;
      |ps| == |parts| && forall i :: 0 <= i < |parts| ==> Some(ps[i]) == LinkPart(catalog, parts[i])
  {
    MapAllPointwise(p => LinkPart(catalog, p), parts);
  }

  /** `part.candidates.map(...)`: every candidate gets its link; the first exception abandons the map. */
  method ResolveCandidates(catalog: seq<Product>, groupPart: Option<Value>, items: seq<Value>) returns (linked: Option<seq<Candidate>>)
    ensures linked == LinkCandidates(catalog, groupPart, items)
  {
    var cands: seq<Candidate> := [];
    for j := 0 to |items|
      invariant LinkCandidates(catalog, groupPart, items[..j]) == Some(cands)
    {
      assert items[..j + 1][..j] == items[..j];
      var c := ResolveCandidate(catalog, groupPart, items[j]);
      if c.None? {
        LinkCandidatesPointwise(catalog, groupPart, items);
        return None;
      }
      cands := cands + [c.value];
    }
    assert items[..|items|] == items;
    return Some(cands);
  }

  /** `parts = parts.map(...)`: every candidate of every part gets its link; the first exception abandons the rewrite. */
  method RewriteLinks(catalog: seq<Product>, parts: seq<Value>) returns (linked: Option<seq<Part>>)
    ensures linked == LinkParts(catalog, parts)
  {
    var done: seq<Part> := [];
    for i := 0 to |parts|
      invariant LinkParts(catalog, parts[..i]) == Some(done)
    {
      assert parts[..i + 1][..i] == parts[..i];
      var part := parts[i];
      if !HasCandidates(part) {
        LinkPartsPointwise(catalog, parts);
        return None;
      }
      var cands := ResolveCandidates(catalog, Member(part, "part"), Member(part, "candidates").value.items);
      if cands.None? {
        LinkPartsPointwise(catalog, parts);
        return None;
      }
      done := done + [Part(part, cands.value)];
    }
    assert parts[..|parts|] == parts;
    return Some(done);
  }

  /**
    The `try` block of `ChatMessage` up to the link rewrite: the locals
    `parts`, `warning` and `parseError` are reassigned as the shapes are
    tried, with the key-labelled fallback of the dictionary shape.
  */
  method Dispatch(v: Value) returns (parts: seq<Value>, warning: Value, parseError: bool)
    ensures parseError <==> Select(v).None?
    ensures !parseError ==> Select(v) == Some(Selection(parts, warning))
  {
    parts := [];
    warning := Str("");
    parseError := false;
    if v.Arr? {
      parts := v.items;
    } else if v.Null? {
      parseError := true;
    } else if IsArray(Member(v, "parts")) {
      parts := Member(v, "parts").value.items;
      warning := WarningOf(v);
    } else if v.Obj? {
      if Truthy(Member(v, "part")) && IsArray(Member(v, "candidates")) {
        parts := [v];
      } else {
        var values := PartValues(v.fields);
        if |values| > 0 {
          parts := values;
        } else {
          KeyedPartsFollowValues(v.fields);
          parts := KeyedParts(v.fields);
        }
        warning := WarningOf(v);
      }
    }
  }

  /**
    `ChatMessage`: user messages and the loading text are never parsed; an
    assistant message is dispatched on its shape, then its links are
    rewritten, and any failure on the way shows the error view.
  */
  method Render(message: Message, parsed: Option<Value>, naverProducts: seq<Product>) returns (view: View)
    ensures view == Interpretation(message, parsed, naverProducts)
  {
    var isUser := message.role == User;
    var isLoadingMsg := message.role == Assistant && message.text == LoadingText;
    var parseError := false;
    var warning: Value := Str("");
    var linked: seq<Part> := [];
    if message.role == Assistant && !isLoadingMsg {
      if parsed.None? {
        parseError := true;
      } else {
        var parts;
        parts, warning, parseError := Dispatch(parsed.value);
        if !parseError {
          var rewritten := RewriteLinks(naverProducts, parts);
          if rewritten.None? {
            parseError := true;
          } else {
            linked := rewritten.value;
          }
        }
      }
    }
    if isUser {
      view := UserText(message.text);
    } else if isLoadingMsg {
      view := Loading;
    } else if parseError {
      view := Failed;
    } else {
      view := Parts(linked, warning);
    }
  }

  // ---------------------------------------------------------------------------
  // Properties of the interpretation

  /**
    Every shape yields the same parts: an array of parts, the same array
    under `parts`, and a dictionary whose values are those parts all select
    them in order; a lone part object with a truthy `part` selects itself.
  */
  lemma AllShapesAgree(fields: seq<(string, Value)>, rest: seq<(string, Value)>, single: Value)
    requires forall i :: 0 <= i < |fields| ==> HasCandidates(fields[i].1)
    requires HasCandidates(single) && Truthy(Member(single, "part")) && !IsArray(Member(single, "parts"))
    ensures var ps := seq(|fields|, i requires 0 <= i < |fields| => fields[i].1);
      && Select(Arr(ps)).value.parts == ps
      && Select(Obj([("parts", Arr(ps))] + rest)).value.parts == ps
      && Select(Obj(fields)).value.parts == ps
      && Select(single).value.parts == [single]
  {
    var ps := seq(|fields|, i requires 0 <= i < |fields| => fields[i].1);
    DictionaryValuesAreParts(fields);
    var parts := Lookup(fields, "parts");
    var cands := Lookup(fields, "candidates");
    assert !IsArray(parts) && !IsArray(cands);
  }

  /** The candidate-level outcome of the rewrite: the source is kept and the link is never empty. */
  lemma LinkCandidateFacts(catalog: seq<Product>, groupPart: Option<Value>, cand: Value)
    requires LinkCandidate(catalog, groupPart, cand).Some?
    ensures var c := LinkCandidate(catalog, groupPart, cand).value;
      && c.source == cand && c.link != []
      && (|| c.link == SearchUrl(ToJsString(Member(cand, "name")))
          || exists k :: 0 <= k < |catalog| && SamePart(catalog[k], groupPart) && catalog[k].link == c.link)
  {
    var text := ToJsString(Member(cand, "name"));
    var best := BestMatch(catalog, groupPart, text);
    BestMatchIsEarliestBest(catalog, groupPart, text);
  }

  /**
    After a successful rewrite, parts and candidates keep their order and
    their own fields; every link is non-empty, and is either the link of a
    same-part catalog product or the search URL for the candidate's name.
    Incoming candidate links play no part.
  */
  lemma RewriteResolvesEveryLink(catalog: seq<Product>, parts: seq<Value>)
    requires LinkParts(catalog, parts).Some?
    ensures var ps := LinkParts(catalog, parts).value;
      && |ps| == |parts|
      && forall i :: 0 <= i < |ps| ==>
        && ps[i].source == parts[i]
        && HasCandidates(parts[i])
        && var items := Member(parts[i], "candidates").value.items;
           var groupPart := Member(parts[i], "part");
           && |ps[i].candidates| == |items|
           && forall j :: 0 <= j < |items| ==>
             var c := ps[i].candidates[j];
             && c.source == items[j] && !items[j].Null? && c.link != []
             && (|| c.link == SearchUrl(ToJsString(Member(items[j], "name")))
                 || exists k :: 0 <= k < |catalog| && SamePart(catalog[k], groupPart) && catalog[k].link == c.link)
  {
    var ps := LinkParts(catalog, parts).value;
    LinkPartsPointwise(catalog, parts);
    forall i | 0 <= i < |ps|
      ensures ps[i].source == parts[i] && HasCandidates(parts[i])
      ensures var items := Member(parts[i], "candidates").value.items;
           var groupPart := Member(parts[i], "part");
           && |ps[i].candidates| == |items|
           && forall j :: 0 <= j < |items| ==>
             var c := ps[i].candidates[j];
             && c.source == items[j] && !items[j].Null? && c.link != []
             && (|| c.link == SearchUrl(ToJsString(Member(items[j], "name")))
                 || exists k :: 0 <= k < |catalog| && SamePart(catalog[k], groupPart) && catalog[k].link == c.link)
    {
      var items := Member(parts[i], "candidates").value.items;
      var groupPart := Member(parts[i], "part");
      LinkCandidatesPointwise(catalog, groupPart, items);
      forall j | 0 <= j < |items|
        ensures LinkCandidate(catalog, groupPart, items[j]).Some?
      {
      }
      forall j | 0 <= j < |items| {
        LinkCandidateFacts(catalog, groupPart, items[j]);
      }
    }
  }

  /** The source's reasons to throw inside the rewrite. */
  predicate CandidateThrows(catalog: seq<Product>, groupPart: Option<Value>, cand: Value) {
    || cand.Null?
    || (HasSamePart(catalog, groupPart) && !(Member(cand, "name").Some? && Member(cand, "name").value.Str?))
  }

  predicate PartThrows(catalog: seq<Product>, part: Value) {
    || !HasCandidates(part)
    || exists j :: 0 <= j < |Member(part, "candidates").value.items| &&
         CandidateThrows(catalog, Member(part, "part"), Member(part, "candidates").value.items[j])
  }

  /**
    The error text is shown exactly when an assistant reply other than the
    loading text is not JSON, is JSON `null`, or has a selected part that
    throws in the rewrite: one without a candidates array, a `null`
    candidate, or a candidate whose name is not a string while a same-part
    product exists. Any other value, a bare number or string included, is
    shown as parts.
  */
  lemma FailedExactly(message: Message, parsed: Option<Value>, catalog: seq<Product>)
    ensures Interpretation(message, parsed, catalog) == Failed <==>
      && message.role == Assistant && message.text != LoadingText
      && (|| parsed.None? || parsed.value.Null?
          || exists i :: 0 <= i < |Select(parsed.value).value.parts| &&
               PartThrows(catalog, Select(parsed.value).value.parts[i]))
  {
    if message.role == Assistant && message.text != LoadingText && parsed.Some? && !parsed.value.Null? {
      var parts := Select(parsed.value).value.parts;
      LinkPartsPointwise(catalog, parts);
      forall i | 0 <= i < |parts|
        ensures LinkPart(catalog, parts[i]).None? <==> PartThrows(catalog, parts[i])
      {
        if HasCandidates(parts[i]) {
          LinkCandidatesPointwise(catalog, Member(parts[i], "part"), Member(parts[i], "candidates").value.items);
        }
      }
    }
  }

  /** `PartCard`'s link: the candidate's own link, or the search URL when it is empty. */
  function CardHref(c: Candidate): string
    requires !c.source.Null?
  {
    if c.link != [] then c.link else SearchUrl(ToJsString(Member(c.source, "name")))
  }

  /** The card's own fallback is never taken: after the rewrite every link is already non-empty. */
  lemma CardUsesRewrittenLink(message: Message, parsed: Option<Value>, catalog: seq<Product>)
    requires Interpretation(message, parsed, catalog).Parts?
    ensures var ps := Interpretation(message, parsed, catalog).parts;
      forall i, j :: 0 <= i < |ps| && 0 <= j < |ps[i].candidates| ==>
        !ps[i].candidates[j].source.Null? && CardHref(ps[i].candidates[j]) == ps[i].candidates[j].link
  {
    var sel := Select(parsed.value).value;
    RewriteResolvesEveryLink(catalog, sel.parts);
    var ps := Interpretation(message, parsed, catalog).parts;
    forall i, j | 0 <= i < |ps| && 0 <= j < |ps[i].candidates|
      ensures !ps[i].candidates[j].source.Null?
    {
      LinkPartsPointwise(catalog, sel.parts);
      var items := Member(sel.parts[i], "candidates").value.items;
      LinkCandidatesPointwise(catalog, Member(sel.parts[i], "part"), items);
    }
  }
}
