/**
  The plain-text recommendation view. The text is split on `[name]`
  headers; each header is paired with the piece after it, and a block whose
  body has a `제품:` line becomes an entry with the product, an optional
  reason paragraph and an optional link. The rendered markup is replaced by
  the entry record.
*/
module ChatResult {
  import opened Wrappers
  import opened Text

  /** One rendered block: the part heading, the product, and the reason and link when present. */
  datatype Entry = Entry(part: string, product: string, reason: Option<string>, link: Option<string>)

  // ---------------------------------------------------------------------------
  // `text.split(/\[([^\]]+)\]/).filter(Boolean)`

  /** The first `]` at or after `j`. */
  function CloseFrom(s: string, j: nat): (q: Option<nat>)
    requires j <= |s|
    ensures q.Some? ==> j <= q.value < |s| && s[q.value] == ']'
    ensures q.Some? ==> forall k :: j <= k < q.value ==> s[k] != ']'
    ensures q.None? ==> forall k :: j <= k < |s| ==> s[k] != ']'
    decreases |s| - j
  {
    if j == |s| then None
    else if s[j] == ']' then Some(j)
    else CloseFrom(s, j + 1)
  }

  /** `s[p..q + 1]` is a header `[name]`: a non-empty name free of `]` between the brackets. */
  predicate IsHeader(s: string, p: nat, q: nat) {
    p + 1 < q < |s| && s[p] == '[' && s[q] == ']' && forall j :: p < j < q ==> s[j] != ']'
  }

  /** The header pattern tried at `p`: the index of the `]` that closes it, when a header starts there. */
  function HeaderAt(s: string, p: nat): (q: Option<nat>)
    ensures q.Some? ==> IsHeader(s, p, q.value)
    ensures q.None? ==> forall q' :: !IsHeader(s, p, q')
  {
    if p + 1 < |s| && s[p] == '[' then
      match CloseFrom(s, p + 1)
      case Some(q) => if q > p + 1 then Some(q) else None
      case None => None
    else None
  }

  /** The leftmost header at or after `from`: its `[` and its `]`. */
  function FindHeader(s: string, from: nat): (r: Option<(nat, nat)>)
    requires from <= |s|
    ensures r.Some? ==> from <= r.value.0 && HeaderAt(s, r.value.0) == Some(r.value.1)
    ensures r.Some? ==> forall p :: from <= p < r.value.0 ==> HeaderAt(s, p).None?
    ensures r.None? ==> forall p :: from <= p < |s| ==> HeaderAt(s, p).None?
    decreases |s| - from
  {
    if from == |s| then None
    else
      match HeaderAt(s, from)
      case Some(q) => Some((from, q))
      case None => FindHeader(s, from + 1)
  }

  /** `split` with the capturing header pattern: the text between headers, each header's name in between. */
  function SplitHeaders(s: string): (r: seq<string>)
    ensures |r| % 2 == 1
    decreases |s|
  {
    match FindHeader(s, 0)
    case None => [s]
    case Some((p, q)) => [s[..p], s[p + 1..q]] + SplitHeaders(s[q + 1..])
  }

  /** Every `[` in `t` is closed at once by `]`, so no header starts in `t`, nor runs from `t` into what follows it. */
  predicate Closed(t: string) {
    forall j :: 0 <= j < |t| && t[j] == '[' ==> j + 1 < |t| && t[j + 1] == ']'
  }

  predicate HeaderFree(t: string) {
    forall p, q :: 0 <= p < q < |t| ==> !IsHeader(t, p, q)
  }

  /** What `[^\]]+` captures: a non-empty name free of `]`. */
  predicate Name(t: string) {
    t != [] && forall j :: 0 <= j < |t| ==> t[j] != ']'
  }

  /**
    `r` cuts `s` at its headers, leftmost first: a text in which every `[`
    is closed at once, the name of the header after it, and the rest cut
    the same way, down to a last text that holds no header. Put back
    together, `r[0] + "[" + r[1] + "]" + r[2] + ...` is `s`.
  */
  predicate SplitOf(s: string, r: seq<string>)
    decreases |r|
  {
    if |r| < 3 then r == [s] && HeaderFree(s)
    else
      var n := |r[0]| + |r[1]| + 2;
      && Closed(r[0]) && Name(r[1]) && n <= |s|
      && s[..n] == r[0] + "[" + r[1] + "]"
      && SplitOf(s[n..], r[2..])
  }

  /** No header starts at `p` when a `]` directly follows the `[` there. */
  lemma ClosedNoHeader(s: string, p: nat)
    requires p + 1 < |s| && s[p + 1] == ']'
    ensures HeaderAt(s, p).None?
  {
    if s[p] == '[' {
      assert CloseFrom(s, p + 1) == Some(p + 1);
    }
  }

  /** Before the leftmost header every `[` is closed at once. */
  lemma ClosedBeforeHeader(s: string, p: nat, q: nat)
    requires IsHeader(s, p, q)
    requires forall j :: 0 <= j < p ==> HeaderAt(s, j).None?
    ensures Closed(s[..p])
  {
    forall j | 0 <= j < p && s[..p][j] == '['
      ensures j + 1 < p && s[j + 1] == ']'
    {
      var m := CloseFrom(s, j + 1);
      assert s[q] == ']' && j + 1 <= q;
      assert m.Some? && m.value <= q;
      assert !IsHeader(s, j, m.value) by { assert HeaderAt(s, j).None?; }
    }
  }

  /** The split pieces cut `s` at its headers, leftmost first. */
  lemma {:induction false} SplitHeadersCuts(s: string)
    ensures SplitOf(s, SplitHeaders(s))
    decreases |s|
  {
    var r := SplitHeaders(s);
    match FindHeader(s, 0)
    case None =>
      forall p, q | 0 <= p < q < |s|
        ensures !IsHeader(s, p, q)
      {
        if p < |s| {
          assert HeaderAt(s, p).None?;
        }
      }
    case Some((p, q)) =>
      ClosedBeforeHeader(s, p, q);
      SplitHeadersCuts(s[q + 1..]);
      assert r[2..] == SplitHeaders(s[q + 1..]);
      assert s[..q + 1] == s[..p] + "[" + s[p + 1..q] + "]";
  }

  /** A header at `p` with none before it is the one the scan finds. */
  lemma LeftmostHeader(s: string, p: nat, q: nat)
    requires HeaderAt(s, p) == Some(q)
    requires forall j :: 0 <= j < p ==> HeaderAt(s, j).None?
    ensures FindHeader(s, 0) == Some((p, q))
  {
  }

  /** When `s` starts with a closed text and a header, that header is the leftmost one. */
  lemma CutHeader(s: string, a: string, b: string)
    requires Closed(a) && Name(b)
    requires |a| + |b| + 2 <= |s| && s[..|a| + |b| + 2] == a + "[" + b + "]"
    ensures FindHeader(s, 0) == Some((|a|, |a| + 1 + |b|))
  {
    var p := |a|;
    var q := p + 1 + |b|;
    CutPositions(s, a, b);
    assert CloseFrom(s, p + 1) == Some(q);
    forall j | 0 <= j < p
      ensures HeaderAt(s, j).None?
    {
      if s[j] == '[' {
        ClosedNoHeader(s, j);
      }
    }
    LeftmostHeader(s, p, q);
  }

  /** Where the pieces of `a + "[" + b + "]"` stand in `s` when `s` starts with it. */
  lemma CutPositions(s: string, a: string, b: string)
    requires |a| + |b| + 2 <= |s| && s[..|a| + |b| + 2] == a + "[" + b + "]"
    ensures forall j :: 0 <= j < |a| ==> s[j] == a[j]
    ensures s[|a|] == '[' && s[|a| + 1 + |b|] == ']'
    ensures forall j :: |a| < j < |a| + 1 + |b| ==> s[j] == b[j - |a| - 1]
  {
    var t := a + "[" + b + "]";
    assert forall j :: 0 <= j < |t| ==> s[j] == t[j];
  }

  /** Conversely, a cut of `s` at its headers is the split: there is only one. */
  lemma {:induction false} SplitIsUnique(s: string, r: seq<string>)
    requires SplitOf(s, r)
    ensures r == SplitHeaders(s)
    decreases |r|
  {
    if |r| < 3 {
      assert FindHeader(s, 0).None?;
    } else {
      var p := |r[0]|;
      var q := p + 1 + |r[1]|;
      CutHeader(s, r[0], r[1]);
      assert s[..p] == r[0] && s[p + 1..q] == r[1] by {
        assert s[..q + 1] == r[0] + "[" + r[1] + "]";
      }
      SplitIsUnique(s[q + 1..], r[2..]);
    }
  }

  /** `.filter(Boolean)`: empty pieces are dropped, every other piece is kept. */
  function NonEmpty(pieces: seq<string>): (r: seq<string>)
    ensures forall i :: 0 <= i < |r| ==> r[i] != []
    ensures forall t :: t != [] ==> multiset(r)[t] == multiset(pieces)[t]
  {
    if pieces == [] then []
    else
      assert pieces == [pieces[0]] + pieces[1..];
      (if pieces[0] == [] then [] else [pieces[0]]) + NonEmpty(pieces[1..])
  }

  /** The filter keeps the order: filtering a concatenation filters each half. */
  lemma {:induction false} NonEmptyAppend(a: seq<string>, b: seq<string>)
    ensures NonEmpty(a + b) == NonEmpty(a) + NonEmpty(b)
  {
    if a != [] {
      NonEmptyAppend(a[1..], b);
      assert (a + b)[1..] == a[1..] + b;
    } else {
      assert a + b == b;
    }
  }

  /** The non-empty split pieces, each as often as the split yields it. */
  function Sections(text: string): (r: seq<string>)
    ensures forall i :: 0 <= i < |r| ==> r[i] != []
    ensures forall t :: t != [] ==> multiset(r)[t] == multiset(SplitHeaders(text))[t]
  {
    NonEmpty(SplitHeaders(text))
  }

  // ---------------------------------------------------------------------------
  // Field captures

  /** The end of the line that `i` is on: the next `\n`, or the end. */
  function LineEnd(s: string, i: nat): (e: nat)
    requires i <= |s|
    ensures i <= e <= |s| && (e < |s| ==> s[e] == '\n')
    ensures forall j :: i <= j < e ==> s[j] != '\n'
    decreases |s| - i
  {
    if i < |s| && s[i] != '\n' then LineEnd(s, i + 1) else i
  }

  /** `[^\n]+(?:\n[^\n]+)*` from `i`: the run of consecutive non-empty lines, ended by a blank line or the end. */
  function ParagraphEnd(s: string, i: nat): (e: nat)
    requires i <= |s|
    ensures i <= e <= |s| && (e < |s| ==> s[e] == '\n' && (e + 1 == |s| || s[e + 1] == '\n'))
    ensures forall j :: i <= j < e && s[j] == '\n' ==> j + 1 < e && s[j + 1] != '\n'
    decreases |s| - i
  {
    var j := LineEnd(s, i);
    if j + 1 < |s| && s[j + 1] != '\n' then ParagraphEnd(s, j + 1) else j
  }

  /** The last index in `[lo, hi)` that does not hold `\n`. */
  function LastNonNewline(s: string, lo: nat, hi: nat): (r: Option<nat>)
    requires lo <= hi <= |s|
    ensures r.Some? ==> lo <= r.value < hi && s[r.value] != '\n'
    ensures r.Some? ==> forall j :: r.value < j < hi ==> s[j] == '\n'
    ensures r.None? ==> forall j :: lo <= j < hi ==> s[j] == '\n'
    decreases hi
  {
    if hi == lo then None
    else if s[hi - 1] != '\n' then Some(hi - 1)
    else LastNonNewline(s, lo, hi - 1)
  }

  /**
    The first capture group of `<tag>\s*([^\n]+)` (one line) or of
    `<tag>\s*([^\n]+(?:\n[^\n]+)*)` (a paragraph) on `content`. The greedy
    `\s*` eats every whitespace character after the first occurrence of the
    tag; only when that whitespace runs to the end of the text does it give
    back its last non-newline character, which is then the whole capture.
  */
  function Capture(content: string, tag: string, paragraph: bool): (r: Option<string>)
    requires tag != []
    ensures r.Some? <==>
      IndexOf(content, tag).Some? &&
      exists j :: IndexOf(content, tag).value + |tag| <= j < |content| && content[j] != '\n'
    ensures r.Some? ==> r.value != [] && forall j :: 0 <= j < |r.value| && r.value[j] == '\n' ==>
      paragraph && 0 < j < |r.value| - 1 && r.value[j + 1] != '\n'
  {
    match IndexOf(content, tag)
    case None => None
    case Some(k) =>
      var start := k + |tag|;
      var w := SpaceEnd(content, start);
      if w < |content| then
        var e := if paragraph then ParagraphEnd(content, w) else LineEnd(content, w);
        Some(content[w..e])
      else
        match LastNonNewline(content, start, w)
        case None => None
        case Some(j) => Some(content[j..j + 1])
  }

  function TrimmedCapture(content: string, tag: string, paragraph: bool): Option<string>
    requires tag != []
  {
    match Capture(content, tag, paragraph)
    case None => None
    case Some(c) => Some(Trim(c))
  }

  /** A block yields an entry exactly when its body has a product capture; the fields are trimmed. */
  function Block(header: string, body: string): Option<Entry> {
    match TrimmedCapture(body, "제품:", false)
    case None => None
    case Some(product) =>
      Some(Entry(Trim(header), product, TrimmedCapture(body, "추천 이유:", true), TrimmedCapture(body, "링크:", false)))
  }

  /** The entry a header and body yield, if any, as a list of at most one. */
  function EntryOf(header: string, body: string): seq<Entry> {
    match Block(header, body)
    case Some(e) => [e]
    case None => []
  }

  /** Piece `2j` is a header and piece `2j + 1` its body; a last header without a body is skipped. */
  function Pair(sections: seq<string>): seq<Entry> {
    if |sections| < 2 then []
    else EntryOf(sections[0], sections[1]) + Pair(sections[2..])
  }

  function PairFrom(sections: seq<string>, i: nat): seq<Entry> {
    if i < |sections| then Pair(sections[i..]) else []
  }

  lemma PairStep(sections: seq<string>, i: nat)
    requires i + 1 < |sections|
    ensures PairFrom(sections, i) == EntryOf(sections[i], sections[i + 1]) + PairFrom(sections, i + 2)
  {
    assert sections[i..][2..] == sections[i + 2..];
  }

  /** An unfolding step of `EntryOf`, for the loop proof of `FormatSection`. */
  lemma EntryOfBlock(header: string, body: string)
    ensures EntryOf(header, body) == if Block(header, body).Some? then [Block(header, body).value] else []
  {
  }

  /** An empty body has no product line. */
  lemma EmptyBodyNoEntry(header: string)
    ensures EntryOf(header, []) == []
  {
    assert IndexOf([], "제품:").None?;
  }

  /** One step of the loop: the entries so far, then this pair's entry, then the rest. */
  lemma PairFromPush(sections: seq<string>, i: nat, before: seq<Entry>)
    requires i + 1 < |sections|
    ensures before + PairFrom(sections, i) == (before + EntryOf(sections[i], sections[i + 1])) + PairFrom(sections, i + 2)
  {
    PairStep(sections, i);
  }

  /** One header/body pair of the loop: nothing for an empty body, else the entry `Block` builds, if any. */
  method FormatSection(partName: string, content: string) returns (entry: seq<Entry>)
    ensures entry == EntryOf(partName, content)
    ensures |entry| <= 1
  {
    entry := [];
    if content == [] {
      // `if (!content) continue;`
      EmptyBodyNoEntry(partName);
    } else {
      // the three matches and the JSX element, or nothing without a product match
      var block := Block(partName, content);
      EntryOfBlock(partName, content);
      if block.Some? {
        entry := [block.value];
      }
    }
  }

  /** The loop of `formatRecommendation`: the index steps by two over the sections and entries are pushed in order. */
  method FormatSections(sections: seq<string>) returns (entries: seq<Entry>)
    ensures entries == Pair(sections)
  {
    entries := [];
    var i := 0;
    assert sections[0..] == sections;
    while i < |sections|
      invariant entries + PairFrom(sections, i) == Pair(sections)
      decreases |sections| - i
    {
      if i + 1 >= |sections| {
        assert |sections[i..]| < 2;
      } else {
        var entry := FormatSection(sections[i], sections[i + 1]);
        PairFromPush(sections, i, entries);
        entries := entries + entry;
      }
      i := i + 2;
    }
  }

  /** `formatRecommendation`: the text split on its headers, then the entries of the pieces. */
  method FormatRecommendation(text: string) returns (entries: seq<Entry>)
    ensures entries == Pair(Sections(text))
  {
    var sections := Sections(text);
    entries := FormatSections(sections);
  }

  // ---------------------------------------------------------------------------
  // Properties

  /** Pieces `(0, 1)`, `(2, 3)`, ... as header/body pairs, in header order; an odd last piece has no pair. */
  function HeaderBodyPairs(sections: seq<string>): seq<(string, string)> {
    seq(|sections| / 2, j requires 0 <= j < |sections| / 2 => (sections[2 * j], sections[2 * j + 1]))
  }

  /** The entries of the pairs that have a product, in order. */
  function Present(pairs: seq<(string, string)>): seq<Entry> {
    if pairs == [] then []
    else EntryOf(pairs[0].0, pairs[0].1) + Present(pairs[1..])
  }

  lemma HeaderBodyPairsStep(sections: seq<string>)
    requires |sections| >= 2
    ensures HeaderBodyPairs(sections) == [(sections[0], sections[1])] + HeaderBodyPairs(sections[2..])
  {
    var pairs := HeaderBodyPairs(sections);
    var rest := sections[2..];
    forall j | 0 <= j < |rest| / 2
      ensures pairs[j + 1] == HeaderBodyPairs(rest)[j]
    {
      assert rest[2 * j] == sections[2 * (j + 1)];
      assert rest[2 * j + 1] == sections[2 * (j + 1) + 1];
    }
  }

  /**
    Pairing is purely positional: the entries are the blocks of pieces
    `(0, 1)`, `(2, 3)`, ... that have a product, in that order, and an odd
    last piece is ignored. A piece dropped or added before a header
    therefore shifts every later pairing.
  */
  lemma {:induction false} PairIsPositional(sections: seq<string>)
    ensures Pair(sections) == Present(HeaderBodyPairs(sections))
    decreases |sections|
  {
    if |sections| >= 2 {
      PairIsPositional(sections[2..]);
      HeaderBodyPairsStep(sections);
      assert HeaderBodyPairs(sections)[1..] == HeaderBodyPairs(sections[2..]);
    }
  }

  predicate NoNewline(s: string) {
    forall j :: 0 <= j < |s| ==> s[j] != '\n'
  }

  /** No blank line inside: every `\n` is followed by a character other than `\n`. */
  predicate NoBlankLine(s: string) {
    forall j :: 0 <= j < |s| && s[j] == '\n' ==> j + 1 < |s| && s[j + 1] != '\n'
  }

  predicate Trimmed(s: string) {
    s != [] ==> !IsSpace(s[0]) && !IsSpace(s[|s| - 1])
  }

  lemma TrimKeepsLines(c: string)
    requires NoBlankLine(c)
    ensures NoBlankLine(Trim(c)) && Trimmed(Trim(c))
    ensures NoNewline(c) ==> NoNewline(Trim(c))
  {
    var r := Trim(c);
    var a: nat, b: nat :| a <= b <= |c| && r == c[a..b];
    if a < b {
      assert r[|r| - 1] == c[b - 1];
    }
    SliceKeepsLines(c, a, b);
  }

  /** A slice of `c` that does not end in white space keeps every line break of `c` followed by a character other than `\n`. */
  lemma SliceKeepsLines(c: string, a: nat, b: nat)
    requires a <= b <= |c| && NoBlankLine(c)
    requires a < b ==> !IsSpace(c[b - 1])
    ensures NoBlankLine(c[a..b])
    ensures NoNewline(c) ==> NoNewline(c[a..b])
  {
    var r := c[a..b];
    forall j | 0 <= j < |r| && r[j] == '\n'
      ensures j + 1 < |r| && r[j + 1] != '\n'
    {
      assert c[a + j] == '\n';
      assert IsSpace(c[a + j]);
      assert a + j != b - 1;
      assert r[j + 1] == c[a + j + 1];
    }
  }

  /**
    The fields of an entry: all are trimmed; the product and the link are
    single lines (the rest of the line after their tag); the reason has no
    blank line inside. The part name may span lines, since the header
    pattern lets line breaks through.
  */
  lemma EntryFields(header: string, body: string)
    requires Block(header, body).Some?
    ensures var e := Block(header, body).value;
      && Trimmed(e.part) && Trimmed(e.product) && NoNewline(e.product)
      && (e.reason.Some? ==> Trimmed(e.reason.value) && NoBlankLine(e.reason.value))
      && (e.link.Some? ==> Trimmed(e.link.value) && NoNewline(e.link.value))
  {
    var product := Capture(body, "제품:", false).value;
    TrimKeepsLines(product);
    var reason := Capture(body, "추천 이유:", true);
    if reason.Some? {
      TrimKeepsLines(reason.value);
    }
    var link := Capture(body, "링크:", false);
    if link.Some? {
      TrimKeepsLines(link.value);
    }
  }

  /** An empty recommendation yields no entries. */
  lemma EmptyTextNoEntries()
    ensures Pair(Sections("")) == []
  {
    assert FindHeader("", 0).None?;
  }

  /**
    Where a capture lies: from the first non-space after the first
    occurrence of the tag to the end of that line, or of that paragraph.
    Whatever follows within those bounds is taken, so a link line directly
    under the reason becomes part of the reason.
  */
  lemma CaptureStops(content: string, tag: string, paragraph: bool)
    requires tag != [] && IndexOf(content, tag).Some?
    requires SpaceEnd(content, IndexOf(content, tag).value + |tag|) < |content|
    ensures var w := SpaceEnd(content, IndexOf(content, tag).value + |tag|);
      Capture(content, tag, paragraph) == Some(content[w..if paragraph then ParagraphEnd(content, w) else LineEnd(content, w)])
  {
  }

  /** A paragraph runs at least to the end of its first line. */
  lemma ParagraphCoversLine(s: string, i: nat)
    requires i <= |s|
    ensures LineEnd(s, i) <= ParagraphEnd(s, i)
  {
  }

  /** A line that starts with `p`, free of line breaks, ends after it. */
  lemma LineCoversText(s: string, i: nat, p: string)
    requires OccursAt(s, p, i) && forall j :: 0 <= j < |p| ==> p[j] != '\n'
    ensures i + |p| <= LineEnd(s, i)
  {
  }

  /** An occurrence inside `s[a..b]` is an occurrence in that slice, shifted by `a`. */
  lemma OccursInSlice(s: string, p: string, i: nat, a: nat, b: nat)
    requires a <= i && i + |p| <= b <= |s| && OccursAt(s, p, i)
    ensures OccursAt(s[a..b], p, i - a)
  {
    var t := s[a..b];
    assert forall k :: 0 <= k < |p| ==> t[i - a + k] == s[i + k] == p[k];
    assert t[i - a..i - a + |p|] == p;
  }

  /** Trimming a text that starts with a non-space keeps every occurrence that ends in a non-space. */
  lemma TrimKeepsInner(c: string, p: string, j: nat)
    requires c != [] && !IsSpace(c[0])
    requires p != [] && !IsSpace(p[|p| - 1]) && OccursAt(c, p, j)
    ensures OccursAt(Trim(c), p, j)
  {
    assert TrimStart(c) == c;
    var r := TrimEnd(c);
    assert c[j + |p| - 1] == p[|p| - 1];
    assert j + |p| <= |r|;
    assert r[j..j + |p|] == c[j..j + |p|];
  }

  const ReasonTag: string := "추천 이유:"
  const LinkLine: string := "\n링크:"

  /** A paragraph whose first line is followed by a line that starts with `링크:` runs past that tag. */
  lemma ParagraphTakesLinkLine(content: string, w: nat)
    requires w < |content| && OccursAt(content, LinkLine, LineEnd(content, w))
    ensures LineEnd(content, w) + |LinkLine| <= ParagraphEnd(content, w)
  {
    var l := LineEnd(content, w);
    assert content[l + 1] == LinkLine[1];
    assert ParagraphEnd(content, w) == ParagraphEnd(content, l + 1);
    assert content[l + 1..l + |LinkLine|] == LinkLine[1..];
    LineCoversText(content, l + 1, LinkLine[1..]);
    ParagraphCoversLine(content, l + 1);
  }

  /**
    A paragraph capture whose first line is directly followed by a line
    that starts with `링크:` takes that line too, trimmed or not.
  */
  lemma ParagraphCaptureTakesLinkLine(content: string, tag: string, w: nat)
    requires tag != [] && IndexOf(content, tag).Some?
    requires w == SpaceEnd(content, IndexOf(content, tag).value + |tag|)
    requires w < |content| && OccursAt(content, LinkLine, LineEnd(content, w))
    ensures Capture(content, tag, true).Some?
    ensures OccursAt(Capture(content, tag, true).value, LinkLine, LineEnd(content, w) - w)
    ensures TrimmedCapture(content, tag, true).Some?
    ensures OccursAt(TrimmedCapture(content, tag, true).value, LinkLine, LineEnd(content, w) - w)
  {
    ParagraphSliceTakesLinkLine(content, tag, w);
    var c := content[w..ParagraphEnd(content, w)];
    assert c[0] == content[w];
    TrimKeepsInner(c, LinkLine, LineEnd(content, w) - w);
    assert TrimmedCapture(content, tag, true) == Some(Trim(c));
  }

  /** The untrimmed paragraph capture runs from `w` to the paragraph end and holds the link line. */
  lemma ParagraphSliceTakesLinkLine(content: string, tag: string, w: nat)
    requires tag != [] && IndexOf(content, tag).Some?
    requires w == SpaceEnd(content, IndexOf(content, tag).value + |tag|)
    requires w < |content| && OccursAt(content, LinkLine, LineEnd(content, w))
    ensures LineEnd(content, w) + |LinkLine| <= ParagraphEnd(content, w)
    ensures Capture(content, tag, true) == Some(content[w..ParagraphEnd(content, w)])
    ensures OccursAt(content[w..ParagraphEnd(content, w)], LinkLine, LineEnd(content, w) - w)
  {
    ParagraphTakesLinkLine(content, w);
    CaptureStops(content, tag, true);
    OccursInSlice(content, LinkLine, LineEnd(content, w), w, ParagraphEnd(content, w));
  }

  /**
    A reason whose first line is directly followed by a line that starts
    with `링크:` takes the link line too: the link line is inside the
    reason, trimmed or not.
  */
  lemma ReasonTakesLinkLine(content: string, w: nat)
    requires IndexOf(content, ReasonTag).Some?
    requires w == SpaceEnd(content, IndexOf(content, ReasonTag).value + |ReasonTag|)
    requires w < |content| && OccursAt(content, LinkLine, LineEnd(content, w))
    ensures TrimmedCapture(content, ReasonTag, true).Some?
    ensures OccursAt(TrimmedCapture(content, ReasonTag, true).value, LinkLine, LineEnd(content, w) - w)
  {
    ParagraphCaptureTakesLinkLine(content, ReasonTag, w);
  }
}
