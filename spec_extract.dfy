/**
  `extractSpecs` of the product table: a per-category label list and maker
  list, and a fixed set of regular-expression rules that overwrite slots of
  a vector that starts out as all `"-"`. Each regular expression is
  modelled by a scanner for that one pattern that follows the engine's
  leftmost, greedy, backtracking semantics; `Search` is the leftmost-match
  loop they share.
*/
module SpecExtract {
  import opened Wrappers
  import opened Text

  /** The seven categories that have a label list and a maker list. */
  datatype Category = Cpu | Mainboard | Memory | Drive | Power | Case | Graphics

  /** The part name that is the category's key in both tables. */
  function Key(c: Category): string {
    match c
    case Cpu => "CPU"
    case Mainboard => "메인보드"
    case Memory => "메모리"
    case Drive => "SSD"
    case Power => "파워서플라이"
    case Case => "케이스"
    case Graphics => "그래픽카드"
  }

  /** The category whose key `part` is, if any: the table lookup both `partSpecs[part]` and `manufacturers[part]` make. */
  function CategoryOf(part: string): (r: Option<Category>)
    ensures r.Some? ==> Key(r.value) == part
    ensures r.None? ==> forall c: Category :: Key(c) != part
  {
    if part == "CPU" then Some(Cpu)
    else if part == "메인보드" then Some(Mainboard)
    else if part == "메모리" then Some(Memory)
    else if part == "SSD" then Some(Drive)
    else if part == "파워서플라이" then Some(Power)
    else if part == "케이스" then Some(Case)
    else if part == "그래픽카드" then Some(Graphics)
    else None
  }

  /** `partSpecs`: the column labels of a category, the maker first. */
  function CategoryLabels(c: Category): (labels: seq<string>)
    ensures 4 <= |labels| <= 5 && labels[0] == "제조사"
  {
    match c
    case Cpu => ["제조사", "코어 수", "기본 클럭", "최대 클럭", "TDP"]
    case Mainboard => ["제조사", "소켓", "폼팩터", "칩셋"]
    case Memory => ["제조사", "용량", "규격", "클럭"]
    case Drive => ["제조사", "용량", "타입", "인터페이스"]
    case Power => ["제조사", "출력", "인증", "팬 크기"]
    case Case => ["제조사", "크기", "폼팩터", "쿨링"]
    case Graphics => ["제조사", "칩셋", "메모리", "코어 클럭"]
  }

  /** `manufacturers`: the makers of a category, in the order they are tried. */
  function CategoryMakers(c: Category): (makers: seq<string>)
    ensures makers != [] && forall m :: m in makers ==> m != [] && m != "-"
  {
    match c
    case Cpu => ["AMD", "Intel"]
    case Mainboard => ["ASUS", "MSI", "GIGABYTE", "ASRock"]
    case Memory => ["삼성전자", "G.SKILL", "CORSAIR", "TeamGroup", "Kingston"]
    case Drive => ["삼성전자", "WD", "Seagate", "마이크론", "SK하이닉스", "ADATA"]
    case Power => ["시소닉", "마이크로닉스", "CORSAIR", "be quiet!", "쿨러마스터"]
    case Case => ["ABKO", "darkFlash", "마이크로닉스", "CORSAIR", "be quiet!", "쿨러마스터"]
    case Graphics => ["NVIDIA", "AMD", "ASUS", "MSI", "GIGABYTE", "ZOTAC"]
  }

  /** `partSpecs[part] || []`. */
  function Labels(part: string): seq<string> {
    match CategoryOf(part)
    case None => []
    case Some(c) => CategoryLabels(c)
  }

  /** `manufacturers[part] || []`. */
  function Makers(part: string): seq<string> {
    match CategoryOf(part)
    case None => []
    case Some(c) => CategoryMakers(c)
  }

  /** The first maker, in list order, whose upper-cased form occurs in the upper-cased name. */
  function FindMaker(upperName: string, makers: seq<string>): (r: Option<string>)
    ensures r.Some? ==> r.value in makers && Contains(upperName, Upper(r.value))
  {
    if makers == [] then None
    else if Contains(upperName, Upper(makers[0])) then Some(makers[0])
    else FindMaker(upperName, makers[1..])
  }

  /**
    No maker is found only when the name contains none of them; otherwise the
    one found is the first in list order that it contains, whatever its
    position in the name.
  */
  lemma {:induction false} FindMakerIsFirst(upperName: string, makers: seq<string>)
    ensures FindMaker(upperName, makers).None? ==> forall m :: m in makers ==> !Contains(upperName, Upper(m))
    ensures FindMaker(upperName, makers).Some? ==> exists k ::
      && 0 <= k < |makers| && makers[k] == FindMaker(upperName, makers).value
      && forall j :: 0 <= j < k ==> !Contains(upperName, Upper(makers[j]))
  {
    if FindMaker(upperName, makers).None? {
      FindMakerNone(upperName, makers);
    } else {
      var k := FindMakerIndex(upperName, makers);
    }
  }

  lemma {:induction false} FindMakerNone(upperName: string, makers: seq<string>)
    requires FindMaker(upperName, makers).None?
    ensures forall m :: m in makers ==> !Contains(upperName, Upper(m))
  {
    if makers != [] {
      FindMakerNone(upperName, makers[1..]);
      forall m | m in makers
        ensures !Contains(upperName, Upper(m))
      {
        if m != makers[0] {
          assert m in makers[1..];
        }
      }
    }
  }

  lemma {:induction false} FindMakerIndex(upperName: string, makers: seq<string>) returns (k: nat)
    requires FindMaker(upperName, makers).Some?
    ensures k < |makers| && makers[k] == FindMaker(upperName, makers).value
    ensures forall j :: 0 <= j < k ==> !Contains(upperName, Upper(makers[j]))
  {
    if Contains(upperName, Upper(makers[0])) {
      k := 0;
    } else {
      var rest := makers[1..];
      var k' := FindMakerIndex(upperName, rest);
      k := k' + 1;
      forall j | 0 <= j < k
        ensures !Contains(upperName, Upper(makers[j]))
      {
        if j > 0 {
          assert makers[j] == rest[j - 1];
        }
      }
    }
  }

  // ---------------------------------------------------------------------------
  // The leftmost-match search shared by every pattern

  /**
    `String.prototype.match` without the `g` flag, from index `from`: the
    first start index at which the pattern matches, with what it yields.
  */
  function Search<T>(at: nat -> Option<T>, lo: nat, hi: nat): (r: Option<(nat, T)>)
    ensures r.Some? ==> lo <= r.value.0 < hi && at(r.value.0) == Some(r.value.1)
    decreases hi - lo
  {
    if lo >= hi then None
    else if at(lo).Some? then Some((lo, at(lo).value))
    else Search(at, lo + 1, hi)
  }

  /** The match found is the leftmost one: no earlier start index matches, and none at all when nothing is found. */
  lemma {:induction false} SearchIsLeftmost<T>(at: nat -> Option<T>, lo: nat, hi: nat)
    ensures var r := Search(at, lo, hi);
      && (r.Some? ==> forall j :: lo <= j < r.value.0 ==> at(j).None?)
      && (r.None? ==> forall j :: lo <= j < hi ==> at(j).None?)
    decreases hi - lo
  {
    if lo < hi && at(lo).None? {
      SearchIsLeftmost(at, lo + 1, hi);
    }
  }

  /** The text a pattern yields at its leftmost match in `s`, if any. */
  function First(s: string, at: nat -> Option<string>): Option<string> {
    match Search(at, 0, |s|)
    case None => None
    case Some((_, t)) => Some(t)
  }

  /** `First` yields what the pattern yields at its leftmost match, and nothing when it matches nowhere. */
  lemma FirstIsLeftmost(s: string, at: nat -> Option<string>)
    ensures First(s, at).None? <==> forall j :: 0 <= j < |s| ==> at(j).None?
    ensures First(s, at).Some? ==> exists i ::
      && 0 <= i < |s| && at(i) == First(s, at)
      && forall j :: 0 <= j < i ==> at(j).None?
  {
    SearchIsLeftmost(at, 0, |s|);
    var r := Search(at, 0, |s|);
    if r.Some? {
      assert at(r.value.0) == First(s, at);
    }
  }

  // ---------------------------------------------------------------------------
  // Pattern pieces

  /** The end of the `\d+` run that starts at `i` (greedy). */
  function RunEnd(s: string, i: nat): (e: nat)
    requires i <= |s|
    ensures i <= e <= |s| && AllDigits(s[i..e]) && (e < |s| ==> !IsDigit(s[e]))
    ensures forall j :: i <= j < e ==> IsDigit(s[j])
    decreases |s| - i
  {
    if i < |s| && IsDigit(s[i]) then
      var e := RunEnd(s, i + 1);
      assert s[i..e] == [s[i]] + s[i + 1..e];
      e
    else i
  }

  /** A longer run of digits than `s[i..k]` never stops before `k`: the run end is at least `k`. */
  lemma RunReaches(s: string, i: nat, k: nat)
    requires i <= k <= |s| && AllDigits(s[i..k])
    ensures k <= RunEnd(s, i)
    decreases k - i
  {
    if i < k {
      assert IsDigit(s[i..k][0]);
      assert s[i + 1..k] == s[i..k][1..];
      RunReaches(s, i + 1, k);
    }
  }

  /** An alternation of literal words at `k`: the first of `alts`, in order, that occurs there. */
  function FirstWordAt(s: string, alts: seq<string>, k: nat): (r: Option<string>)
    ensures r.Some? ==> r.value in alts && OccursAt(s, r.value, k)
    ensures r.Some? ==> exists n :: 0 <= n < |alts| && alts[n] == r.value && forall m :: 0 <= m < n ==> !OccursAt(s, alts[m], k)
    ensures r.None? ==> forall u :: u in alts ==> !OccursAt(s, u, k)
  {
    if alts == [] then None
    else if OccursAt(s, alts[0], k) then Some(alts[0])
    else
      var r := FirstWordAt(s, alts[1..], k);
      if r.Some? then FirstWordShift(s, alts, k, r.value); r else r
  }

  /** A word first among `alts[1..]` is first among `alts` when `alts[0]` does not occur. */
  lemma FirstWordShift(s: string, alts: seq<string>, k: nat, v: string)
    requires alts != [] && !OccursAt(s, alts[0], k)
    requires exists n :: 0 <= n < |alts[1..]| && alts[1..][n] == v && forall m :: 0 <= m < n ==> !OccursAt(s, alts[1..][m], k)
    ensures exists n :: 0 <= n < |alts| && alts[n] == v && forall m :: 0 <= m < n ==> !OccursAt(s, alts[m], k)
  {
    var n :| 0 <= n < |alts[1..]| && alts[1..][n] == v && forall m :: 0 <= m < n ==> !OccursAt(s, alts[1..][m], k);
    forall m | 0 <= m < n + 1
      ensures !OccursAt(s, alts[m], k)
    {
      if m > 0 {
        assert alts[m] == alts[1..][m - 1];
      }
    }
    assert alts[n + 1] == v;
  }

  /** `a` and `b` are equal up to ASCII case, as a pattern with the `i` flag compares them. */
  predicate SameText(a: string, b: string)
    decreases |a|
  {
    |a| == |b| && (a == [] || (SameLetter(a[0], b[0]) && SameText(a[1..], b[1..])))
  }

  lemma {:induction false} SameTextIsSameUpper(a: string, b: string)
    ensures SameText(a, b) <==> Upper(a) == Upper(b)
    decreases |a|
  {
    if |a| == |b| && a != [] {
      SameTextIsSameUpper(a[1..], b[1..]);
      assert Upper(a) == [UpperChar(a[0])] + Upper(a[1..]);
      assert Upper(b) == [UpperChar(b[0])] + Upper(b[1..]);
      if Upper(a) == Upper(b) {
        assert Upper(a)[0] == Upper(b)[0];
        assert Upper(a)[1..] == Upper(b)[1..];
      }
    }
  }

  /** `s[k..]` starts with `w` up to ASCII case. */
  predicate OccursAtIgnoringCase(s: string, w: string, k: nat) {
    k + |w| <= |s| && SameText(s[k..k + |w|], w)
  }

  /** An alternation of words with the `i` flag at `k`: the first of `alts` that occurs there up to case. */
  function FirstWordAtIgnoringCase(s: string, alts: seq<string>, k: nat): (r: Option<string>)
    ensures r.Some? ==> r.value in alts && OccursAtIgnoringCase(s, r.value, k)
    ensures r.Some? ==> exists n :: 0 <= n < |alts| && alts[n] == r.value && forall m :: 0 <= m < n ==> !OccursAtIgnoringCase(s, alts[m], k)
    ensures r.None? ==> forall w :: w in alts ==> !OccursAtIgnoringCase(s, w, k)
  {
    if alts == [] then None
    else if OccursAtIgnoringCase(s, alts[0], k) then Some(alts[0])
    else
      var r := FirstWordAtIgnoringCase(s, alts[1..], k);
      if r.Some? then FirstWordShiftIgnoringCase(s, alts, k, r.value); r else r
  }

  /** A word first among `alts[1..]` up to case is first among `alts` when `alts[0]` does not occur. */
  lemma FirstWordShiftIgnoringCase(s: string, alts: seq<string>, k: nat, v: string)
    requires alts != [] && !OccursAtIgnoringCase(s, alts[0], k)
    requires exists n :: 0 <= n < |alts[1..]| && alts[1..][n] == v && forall m :: 0 <= m < n ==> !OccursAtIgnoringCase(s, alts[1..][m], k)
    ensures exists n :: 0 <= n < |alts| && alts[n] == v && forall m :: 0 <= m < n ==> !OccursAtIgnoringCase(s, alts[m], k)
  {
    var n :| 0 <= n < |alts[1..]| && alts[1..][n] == v && forall m :: 0 <= m < n ==> !OccursAtIgnoringCase(s, alts[1..][m], k);
    forall m | 0 <= m < n + 1
      ensures !OccursAtIgnoringCase(s, alts[m], k)
    {
      if m > 0 {
        assert alts[m] == alts[1..][m - 1];
      }
    }
    assert alts[n + 1] == v;
  }

  // ---------------------------------------------------------------------------
  // The patterns, each anchored at a start index `i`

  /** `(\d+)W`, `(\d+)코어`, `(\d+)GB` and `(\d+)(?:GB|TB)`: digits then one of `units`; yields the whole match. */
  function DigitsUnitAt(s: string, units: seq<string>, i: nat): Option<string> {
    if i >= |s| then None
    else
      var e := RunEnd(s, i);
      if e == i then None
      else
        match FirstWordAt(s, units, e)
        case None => None
        case Some(u) => Some(s[i..e + |u|])
  }

  /** What the digits-and-unit scanner yields is a digit run read to its end, then one of the units, found at `i`. */
  lemma DigitsUnitShape(s: string, units: seq<string>, i: nat)
    requires DigitsUnitAt(s, units, i).Some?
    ensures i < RunEnd(s, i) && OccursAt(s, DigitsUnitAt(s, units, i).value, i)
    ensures IsDigit(DigitsUnitAt(s, units, i).value[0])
    ensures exists u :: u in units && DigitsUnitAt(s, units, i).value == s[i..RunEnd(s, i)] + u
  {
    var e := RunEnd(s, i);
    var u := FirstWordAt(s, units, e).value;
    assert s[i..e + |u|] == s[i..e] + u;
  }

  /** No unit starts with a digit, so a digit run is always read to its end before the unit. */
  predicate UnitsAfterDigits(units: seq<string>) {
    forall u :: u in units ==> u != [] && !IsDigit(u[0])
  }

  /** Digits followed by a unit are a match at their start: the scanner misses none. */
  lemma DigitsUnitComplete(s: string, units: seq<string>, i: nat, k: nat, u: string)
    requires UnitsAfterDigits(units) && u in units
    requires i < k <= |s| && AllDigits(s[i..k]) && OccursAt(s, u, k)
    ensures DigitsUnitAt(s, units, i).Some?
  {
    RunReaches(s, i, k);
    assert s[k] == u[0];
  }

  /** `(\d+)` followed by one of `units` matches at `j`, read off the pattern itself. */
  predicate MatchesDigitsUnit(s: string, units: seq<string>, j: nat) {
    exists k: nat, u :: j < k <= |s| && AllDigits(s[j..k]) && u in units && OccursAt(s, u, k)
  }

  /** The scanner finds a match exactly where the pattern matches. */
  lemma DigitsUnitExact(s: string, units: seq<string>, j: nat)
    requires UnitsAfterDigits(units)
    ensures DigitsUnitAt(s, units, j).Some? <==> MatchesDigitsUnit(s, units, j)
  {
    if DigitsUnitAt(s, units, j).Some? {
      var e := RunEnd(s, j);
      var u := FirstWordAt(s, units, e).value;
      assert AllDigits(s[j..e]) && OccursAt(s, u, e);
    }
    if MatchesDigitsUnit(s, units, j) {
      var k: nat, u :| j < k <= |s| && AllDigits(s[j..k]) && u in units && OccursAt(s, u, k);
      DigitsUnitComplete(s, units, j, k, u);
    }
  }

  /** `s.match(/(\d+)(unit|...)/)`: what the pattern yields at its leftmost match. */
  function DigitsRule(s: string, units: seq<string>): Option<string> {
    First(s, (i: nat) => DigitsUnitAt(s, units, i))
  }

  /** A digits-and-unit rule yields nothing exactly when the pattern matches nowhere in `s`. */
  lemma DigitsUnitRuleNone(s: string, units: seq<string>)
    requires UnitsAfterDigits(units)
    ensures DigitsRule(s, units).None? <==> forall j :: 0 <= j < |s| ==> !MatchesDigitsUnit(s, units, j)
  {
    var at := (i: nat) => DigitsUnitAt(s, units, i);
    FirstIsLeftmost(s, at);
    var r := First(s, at);
    if r.None? {
      NoDigitsUnitBefore(s, units, at, |s|);
    } else {
      var i :| 0 <= i < |s| && at(i) == r;
      assert DigitsUnitAt(s, units, i) == r;
      DigitsUnitExact(s, units, i);
    }
  }

  /** Otherwise it yields, from the leftmost start where the pattern matches, the whole digit run and a unit. */
  lemma DigitsUnitRuleSome(s: string, units: seq<string>)
    requires UnitsAfterDigits(units)
    requires DigitsRule(s, units).Some?
    ensures exists i ::
      && 0 <= i < |s| && MatchesDigitsUnit(s, units, i)
      && (forall j :: 0 <= j < i ==> !MatchesDigitsUnit(s, units, j))
      && exists u :: u in units && DigitsRule(s, units).value == s[i..RunEnd(s, i)] + u
  {
    var at := (i: nat) => DigitsUnitAt(s, units, i);
    FirstIsLeftmost(s, at);
    var r := First(s, at);
    var i :| 0 <= i < |s| && at(i) == r && forall j :: 0 <= j < i ==> at(j).None?;
    assert DigitsUnitAt(s, units, i) == r;
    NoDigitsUnitBefore(s, units, at, i);
    DigitsUnitExact(s, units, i);
    DigitsUnitShape(s, units, i);
  }

  lemma NoDigitsUnitBefore(s: string, units: seq<string>, at: nat -> Option<string>, n: nat)
    requires UnitsAfterDigits(units)
    requires at == ((i: nat) => DigitsUnitAt(s, units, i))
    requires forall j :: 0 <= j < n ==> at(j).None?
    ensures forall j :: 0 <= j < n ==> !MatchesDigitsUnit(s, units, j)
  {
    forall j | 0 <= j < n
      ensures !MatchesDigitsUnit(s, units, j)
    {
      assert at(j).None?;
      DigitsUnitExact(s, units, j);
    }
  }

  const ClockUnits: seq<string> := ["GHz", "MHz"]

  /** `\d+\.?\d*`: one or more digits, then at most one dot, then any digits. */
  predicate ClockNumber(t: string) {
    exists m: nat :: 0 < m <= |t| && AllDigits(t[..m]) && (m == |t| || (t[m] == '.' && AllDigits(t[m + 1..])))
  }

  /** `\d+(?:\.\d+)?`: one or more digits, then possibly a dot and one or more digits. */
  predicate DecimalNumber(t: string) {
    exists m: nat :: 0 < m <= |t| && AllDigits(t[..m]) && (m == |t| || (m + 1 < |t| && t[m] == '.' && AllDigits(t[m + 1..])))
  }

  /** `s[i..e]` is a digit run and `s[e..f]` is a dot and a digit run (the dot and the second run only when `e < f`). */
  lemma NumberParts(s: string, i: nat, e: nat, f: nat)
    requires i < e <= f <= |s| && AllDigits(s[i..e])
    requires e < f ==> s[e] == '.' && AllDigits(s[e + 1..f])
    ensures ClockNumber(s[i..f])
    ensures e < f ==> e + 1 < f ==> DecimalNumber(s[i..f])
    ensures e == f ==> DecimalNumber(s[i..f])
  {
    var t := s[i..f];
    assert t[..e - i] == s[i..e];
    if e < f {
      assert t[e - i] == '.' && t[e - i + 1..] == s[e + 1..f];
    }
  }

  /**
    The end of `\d+\.?\d*` read greedily from a digit at `i`: the digits,
    then a dot and the digits after it. It stops at a character that is
    neither a digit nor a dot, or at a second dot.
  */
  function NumberEnd(s: string, i: nat): (f: nat)
    requires i < |s| && IsDigit(s[i])
    ensures i < f <= |s| && ClockNumber(s[i..f])
    ensures f < |s| ==> !IsDigit(s[f]) && (s[f] == '.' ==> '.' in s[i..f])
  {
    var e := RunEnd(s, i);
    if e < |s| && s[e] == '.' then
      var f := RunEnd(s, e + 1);
      NumberParts(s, i, e, f);
      assert s[i..f][e - i] == '.';
      f
    else
      NumberParts(s, i, e, e);
      e
  }

  /** A digit run followed by a character that is not a digit ends there. */
  lemma RunEndsAt(s: string, i: nat, k: nat)
    requires i <= k <= |s| && AllDigits(s[i..k]) && (k < |s| ==> !IsDigit(s[k]))
    ensures RunEnd(s, i) == k
  {
    RunReaches(s, i, k);
  }

  /** The parts of a `\d+\.?\d*` number written at `s[i..f]`, as positions in `s`. */
  lemma ClockSplit(s: string, i: nat, f: nat)
    requires i < f <= |s| && ClockNumber(s[i..f])
    ensures exists e: nat :: i < e <= f && AllDigits(s[i..e]) && (e == f || (s[e] == '.' && AllDigits(s[e + 1..f])))
  {
    var t := s[i..f];
    var m: nat :| 0 < m <= |t| && AllDigits(t[..m]) && (m == |t| || (t[m] == '.' && AllDigits(t[m + 1..])));
    assert t[..m] == s[i..i + m];
    if m < |t| {
      assert t[m + 1..] == s[i + m + 1..f];
    }
  }

  /** A `\d+\.?\d*` number followed by neither a digit nor a dot is exactly what `NumberEnd` reads. */
  lemma NumberEndsAt(s: string, i: nat, f: nat)
    requires i < f <= |s| && ClockNumber(s[i..f])
    requires f < |s| ==> !IsDigit(s[f]) && s[f] != '.'
    ensures IsDigit(s[i]) && NumberEnd(s, i) == f
  {
    ClockSplit(s, i, f);
    var e: nat :| i < e <= f && AllDigits(s[i..e]) && (e == f || (s[e] == '.' && AllDigits(s[e + 1..f])));
    assert IsDigit(s[i..e][0]);
    if e == f {
      RunEndsAt(s, i, f);
    } else {
      RunEndsAt(s, i, e);
      RunEndsAt(s, e + 1, f);
    }
  }

  /** `\d+\.?\d*(?:GHz|MHz)` matches at `i`, read off the pattern itself. */
  predicate MatchesClock(s: string, i: nat) {
    exists f: nat, u :: i < f <= |s| && ClockNumber(s[i..f]) && u in ClockUnits && OccursAt(s, u, f)
  }

  /** `\d+\.?\d*(?:GHz|MHz)`: yields the whole match, as the `g` flag does. */
  function ClockAt(s: string, i: nat): Option<string> {
    if i >= |s| || !IsDigit(s[i]) then None
    else
      var f := NumberEnd(s, i);
      match FirstWordAt(s, ClockUnits, f)
      case None => None
      case Some(u) => Some(s[i..f + |u|])
  }

  /** A unit occurs at `f` only behind its first letter, which is neither a digit nor a dot. */
  lemma UnitStart(s: string, u: string, f: nat)
    requires u != [] && OccursAt(s, u, f)
    ensures f < |s| && s[f] == u[0]
  {
    assert s[f..f + |u|][0] == s[f];
  }

  /** The clock scanner finds a match exactly where the pattern matches. */
  lemma ClockExact(s: string, i: nat)
    ensures ClockAt(s, i).Some? <==> MatchesClock(s, i)
  {
    if ClockAt(s, i).Some? {
      var f := NumberEnd(s, i);
      var u := FirstWordAt(s, ClockUnits, f).value;
      assert i < f <= |s| && ClockNumber(s[i..f]) && u in ClockUnits && OccursAt(s, u, f);
    }
    if MatchesClock(s, i) {
      var f: nat, u :| i < f <= |s| && ClockNumber(s[i..f]) && u in ClockUnits && OccursAt(s, u, f);
      UnitStart(s, u, f);
      NumberEndsAt(s, i, f);
    }
  }

  /** A clock is the number `NumberEnd` reads from `i`, then `GHz` or `MHz`, as the name writes it. */
  lemma ClockShape(s: string, i: nat)
    requires ClockAt(s, i).Some?
    ensures IsDigit(s[i]) && OccursAt(s, ClockAt(s, i).value, i)
    ensures exists u :: u in ClockUnits && OccursAt(s, u, NumberEnd(s, i)) && ClockAt(s, i).value == s[i..NumberEnd(s, i)] + u
  {
    var f := NumberEnd(s, i);
    var u := FirstWordAt(s, ClockUnits, f).value;
    assert s[i..f + |u|] == s[i..f] + u;
  }

  const CapacityUnits: seq<string> := ["TB", "GB"]

  /**
    The end of `\d+(?:\.\d+)?` read greedily from a digit at `i`: the
    fraction is taken only when a digit follows the dot.
  */
  function DecimalEnd(s: string, i: nat): (f: nat)
    requires i < |s| && IsDigit(s[i])
    ensures i < f <= |s| && DecimalNumber(s[i..f])
    ensures f < |s| ==> !IsDigit(s[f]) && (s[f] == '.' && f + 1 < |s| && IsDigit(s[f + 1]) ==> '.' in s[i..f])
  {
    var e := RunEnd(s, i);
    if e + 1 < |s| && s[e] == '.' && IsDigit(s[e + 1]) then
      var f := RunEnd(s, e + 1);
      NumberParts(s, i, e, f);
      assert s[i..f][e - i] == '.';
      f
    else
      NumberParts(s, i, e, e);
      e
  }

  /** The parts of a `\d+(?:\.\d+)?` number written at `s[i..f]`, as positions in `s`. */
  lemma DecimalSplit(s: string, i: nat, f: nat)
    requires i < f <= |s| && DecimalNumber(s[i..f])
    ensures exists e: nat :: i < e <= f && AllDigits(s[i..e]) && (e == f || (e + 1 < f && s[e] == '.' && AllDigits(s[e + 1..f])))
  {
    var t := s[i..f];
    var m: nat :| 0 < m <= |t| && AllDigits(t[..m]) && (m == |t| || (m + 1 < |t| && t[m] == '.' && AllDigits(t[m + 1..])));
    assert t[..m] == s[i..i + m];
    if m < |t| {
      assert t[m + 1..] == s[i + m + 1..f];
    }
  }

  /** A `\d+(?:\.\d+)?` number followed by neither a digit nor a dot is exactly what `DecimalEnd` reads. */
  lemma DecimalEndsAt(s: string, i: nat, f: nat)
    requires i < f <= |s| && DecimalNumber(s[i..f])
    requires f < |s| ==> !IsDigit(s[f]) && s[f] != '.'
    ensures IsDigit(s[i]) && DecimalEnd(s, i) == f
  {
    DecimalSplit(s, i, f);
    var e: nat :| i < e <= f && AllDigits(s[i..e]) && (e == f || (e + 1 < f && s[e] == '.' && AllDigits(s[e + 1..f])));
    assert IsDigit(s[i..e][0]);
    if e == f {
      RunEndsAt(s, i, f);
    } else {
      RunEndsAt(s, i, e);
      assert IsDigit(s[e + 1..f][0]);
      RunEndsAt(s, e + 1, f);
    }
  }

  /** `(\d+(?:\.\d+)?)(TB|GB)` matches at `i`, read off the pattern itself. */
  predicate MatchesCapacity(s: string, i: nat) {
    exists f: nat, u :: i < f <= |s| && DecimalNumber(s[i..f]) && u in CapacityUnits && OccursAt(s, u, f)
  }

  /** `(\d+(?:\.\d+)?)(TB|GB)`: the two groups together, which is the whole match. */
  function CapacityAt(s: string, i: nat): Option<string> {
    if i >= |s| || !IsDigit(s[i]) then None
    else
      var f := DecimalEnd(s, i);
      match FirstWordAt(s, CapacityUnits, f)
      case Some(u) => Some(s[i..f + |u|])
      case None =>
        // the optional fraction is given up; the unit must then follow the integer digits
        var e := RunEnd(s, i);
        match FirstWordAt(s, CapacityUnits, e)
        case None => None
        case Some(u) => Some(s[i..e + |u|])
  }

  /** The capacity scanner finds a match exactly where the pattern matches. */
  lemma CapacityExact(s: string, i: nat)
    ensures CapacityAt(s, i).Some? <==> MatchesCapacity(s, i)
  {
    if CapacityAt(s, i).Some? {
      CapacityShape(s, i);
    }
    if MatchesCapacity(s, i) {
      var f: nat, u :| i < f <= |s| && DecimalNumber(s[i..f]) && u in CapacityUnits && OccursAt(s, u, f);
      UnitStart(s, u, f);
      DecimalEndsAt(s, i, f);
    }
  }

  /** A capacity is a number that may have a fraction, then `TB` or `GB`, as the name writes it at `i`. */
  lemma CapacityShape(s: string, i: nat)
    requires CapacityAt(s, i).Some?
    ensures OccursAt(s, CapacityAt(s, i).value, i)
    ensures exists f: nat, u :: i < f <= |s| && DecimalNumber(s[i..f]) && u in CapacityUnits && OccursAt(s, u, f) && CapacityAt(s, i).value == s[i..f] + u
  {
    var f := DecimalEnd(s, i);
    if FirstWordAt(s, CapacityUnits, f).Some? {
      var u := FirstWordAt(s, CapacityUnits, f).value;
      assert s[i..f + |u|] == s[i..f] + u;
    } else {
      // the fallback to the integer digits never finds a unit: either no
      // fraction was read, or a dot stands where the unit would start
      assert false;
    }
  }

  /** `(DDR\d)` with the `i` flag: the group upper-cased. */
  function DdrAt(s: string, i: nat): (r: Option<string>)
    ensures r.Some? <==> OccursAtIgnoringCase(s, "DDR", i) && i + 3 < |s| && IsDigit(s[i + 3])
    ensures r.Some? ==> r.value == Upper(s[i..i + 4])
  {
    if OccursAtIgnoringCase(s, "DDR", i) && i + 3 < |s| && IsDigit(s[i + 3]) then Some(Upper(s[i..i + 4]))
    else None
  }

  /** `(\d{4})`: four digits, with `MHz` appended. */
  function FourDigitsAt(s: string, i: nat): (r: Option<string>)
    ensures r.Some? <==> i + 4 <= |s| && AllDigits(s[i..i + 4])
    ensures r.Some? ==> r.value == s[i..i + 4] + "MHz"
  {
    if i + 4 <= |s| && AllDigits(s[i..i + 4]) then Some(s[i..i + 4] + "MHz") else None
  }

  const Tiers: seq<string> := ["Bronze", "Silver", "Gold", "Platinum", "Titanium"]

  /** What `\s*` matches: white space only. */
  predicate Spaces(t: string) {
    forall j :: 0 <= j < |t| ==> IsSpace(t[j])
  }

  /** `\s*` read greedily from `a` takes only white space. */
  lemma SpaceEndSpaces(s: string, a: nat)
    requires a <= |s|
    ensures Spaces(s[a..SpaceEnd(s, a)])
  {
    var e := SpaceEnd(s, a);
    assert forall j :: 0 <= j < e - a ==> s[a..e][j] == s[a + j];
  }

  /** White space followed by something else is exactly what `\s*` reads. */
  lemma SpaceEndsAt(s: string, a: nat, j: nat)
    requires a <= j <= |s| && Spaces(s[a..j]) && (j < |s| ==> !IsSpace(s[j]))
    ensures SpaceEnd(s, a) == j
  {
  }

  /** A word found at `k` up to case agrees with `s` letter by letter up to case. */
  lemma CaseAt(s: string, w: string, k: nat, x: nat)
    requires OccursAtIgnoringCase(s, w, k) && x < |w|
    ensures UpperChar(s[k + x]) == UpperChar(w[x])
  {
    SameTextIsSameUpper(s[k..k + |w|], w);
    assert Upper(s[k..k + |w|])[x] == Upper(w)[x];
  }

  /** A word that starts with a capital letter, found at `k` up to case, starts with a letter there, not white space. */
  lemma LetterAt(s: string, w: string, k: nat)
    requires OccursAtIgnoringCase(s, w, k) && w != [] && IsAsciiUpper(w[0])
    ensures k < |s| && !IsSpace(s[k]) && !IsDigit(s[k])
  {
    CaseAt(s, w, k, 0);
  }

  /** `80\s*PLUS\s*(Bronze|Silver|Gold|Platinum|Titanium)` with the `i` flag matches at `i`, read off the pattern itself. */
  predicate MatchesCert(s: string, i: nat) {
    exists j: nat, k: nat, w :: j <= k <= |s| && w in Tiers && CertParts(s, i, j, k, w)
  }

  /** `80\s*PLUS\s*(Bronze|Silver|Gold|Platinum|Titanium)` with the `i` flag: `80 PLUS ` and the tier as written. */
  function CertAt(s: string, i: nat): Option<string> {
    if !OccursAt(s, "80", i) then None
    else
      var j := SpaceEnd(s, i + 2);
      if !OccursAtIgnoringCase(s, "PLUS", j) then None
      else
        var k := SpaceEnd(s, j + 4);
        match FirstWordAtIgnoringCase(s, Tiers, k)
        case None => None
        case Some(w) => Some("80 PLUS " + s[k..k + |w|])
  }

  /** `80 PLUS`, white space and a tier: the pattern with its `\s*` runs at `j` and `k` fixed. */
  predicate CertParts(s: string, i: nat, j: nat, k: nat, w: string) {
    && OccursAt(s, "80", i) && i + 2 <= j <= |s| && Spaces(s[i + 2..j])
    && OccursAtIgnoringCase(s, "PLUS", j) && j + 4 <= k <= |s| && Spaces(s[j + 4..k])
    && w in Tiers && OccursAtIgnoringCase(s, w, k)
  }

  /** What the certification scanner finds is a match of the pattern. */
  lemma CertSound(s: string, i: nat)
    requires CertAt(s, i).Some?
    ensures MatchesCert(s, i)
  {
    var j := SpaceEnd(s, i + 2);
    var k := SpaceEnd(s, j + 4);
    SpaceEndSpaces(s, i + 2);
    SpaceEndSpaces(s, j + 4);
    var w := FirstWordAtIgnoringCase(s, Tiers, k).value;
    assert CertParts(s, i, j, k, w);
  }

  /** Where the pattern matches, the certification scanner finds it. */
  lemma CertComplete(s: string, i: nat, j: nat, k: nat, w: string)
    requires CertParts(s, i, j, k, w)
    ensures CertAt(s, i).Some?
  {
    LetterAt(s, "PLUS", j);
    SpaceEndsAt(s, i + 2, j);
    assert w != [] && IsAsciiUpper(w[0]);
    LetterAt(s, w, k);
    SpaceEndsAt(s, j + 4, k);
  }

  /** The certification scanner finds a match exactly where the pattern matches. */
  lemma CertExact(s: string, i: nat)
    ensures CertAt(s, i).Some? <==> MatchesCert(s, i)
  {
    if CertAt(s, i).Some? {
      CertSound(s, i);
    }
    if MatchesCert(s, i) {
      var j: nat, k: nat, w :| j <= k <= |s| && w in Tiers && CertParts(s, i, j, k, w);
      CertComplete(s, i, j, k, w);
    }
  }

  /**
    A certification starts at an `80` in the name and is `80 PLUS ` and a
    tier name exactly as the name writes it, in whatever case.
  */
  lemma CertShape(s: string, i: nat)
    requires CertAt(s, i).Some?
    ensures OccursAt(s, "80", i)
    ensures exists k: nat, w :: i < k && w in Tiers && OccursAtIgnoringCase(s, w, k) && CertAt(s, i).value == "80 PLUS " + s[k..k + |w|]
  {
    var j := SpaceEnd(s, i + 2);
    var k := SpaceEnd(s, j + 4);
    var w := FirstWordAtIgnoringCase(s, Tiers, k).value;
    assert i < k && OccursAtIgnoringCase(s, w, k);
  }

  const Chips: seq<string> := ["RTX", "GTX", "RX"]

  /** The chip name `w` at `i`, white space, and four digits at `j`. */
  predicate ChipThenDigits(s: string, w: string, i: nat, j: nat) {
    && w in Chips && OccursAtIgnoringCase(s, w, i) && i + |w| <= j && j + 4 <= |s|
    && Spaces(s[i + |w|..j]) && AllDigits(s[j..j + 4])
  }

  /** `(RTX|GTX|RX)\s*\d{4}` with the `i` flag matches at `i`, read off the pattern itself. */
  predicate MatchesChipset(s: string, i: nat) {
    exists w, j: nat :: w in Chips && j <= |s| && ChipThenDigits(s, w, i, j)
  }

  /** `(RTX|GTX|RX)\s*\d{4}` with the `i` flag: the whole match upper-cased. */
  function ChipsetAt(s: string, i: nat): Option<string> {
    match FirstWordAtIgnoringCase(s, Chips, i)
    case None => None
    case Some(w) =>
      var j := SpaceEnd(s, i + |w|);
      if j + 4 <= |s| && AllDigits(s[j..j + 4]) then Some(Upper(s[i..j + 4])) else None
  }

  /** At most one chip name starts at `i`: they differ in their first two letters, whatever the case. */
  lemma ChipsExclusive(s: string, a: string, b: string, i: nat)
    requires a in Chips && b in Chips && OccursAtIgnoringCase(s, a, i) && OccursAtIgnoringCase(s, b, i)
    ensures a == b
  {
    assert |a| >= 2 && |b| >= 2;
    CaseAt(s, a, i, 0);
    CaseAt(s, b, i, 0);
    CaseAt(s, a, i, 1);
    CaseAt(s, b, i, 1);
  }

  /** What the chipset scanner finds is a match of the pattern. */
  lemma ChipsetSound(s: string, i: nat)
    requires ChipsetAt(s, i).Some?
    ensures MatchesChipset(s, i)
  {
    var w := FirstWordAtIgnoringCase(s, Chips, i).value;
    SpaceEndSpaces(s, i + |w|);
    var j := SpaceEnd(s, i + |w|);
    assert ChipThenDigits(s, w, i, j);
  }

  /** Where the pattern matches, the chipset scanner finds it. */
  lemma ChipsetComplete(s: string, w: string, i: nat, j: nat)
    requires ChipThenDigits(s, w, i, j)
    ensures ChipsetAt(s, i).Some?
  {
    var v := FirstWordAtIgnoringCase(s, Chips, i).value;
    ChipsExclusive(s, v, w, i);
    assert IsDigit(s[j..j + 4][0]);
    SpaceEndsAt(s, i + |w|, j);
  }

  /** The chipset scanner finds a match exactly where the pattern matches. */
  lemma ChipsetExact(s: string, i: nat)
    ensures ChipsetAt(s, i).Some? <==> MatchesChipset(s, i)
  {
    if ChipsetAt(s, i).Some? {
      ChipsetSound(s, i);
    }
    if MatchesChipset(s, i) {
      var w, j: nat :| w in Chips && j <= |s| && ChipThenDigits(s, w, i, j);
      ChipsetComplete(s, w, i, j);
    }
  }

  /** A chipset is the upper-cased text from `i` to the end of four digits. */
  lemma ChipsetShape(s: string, i: nat)
    requires ChipsetAt(s, i).Some?
    ensures exists n :: i + 4 < n <= |s| && ChipsetAt(s, i).value == Upper(s[i..n]) && AllDigits(s[n - 4..n])
  {
    var w := FirstWordAtIgnoringCase(s, Chips, i).value;
    var j := SpaceEnd(s, i + |w|);
    assert s[i..j + 4][j + 4 - 4 - i..] == s[j..j + 4];
  }

  // ---------------------------------------------------------------------------
  // The rules

  function Cores(s: string): Option<string> {
    DigitsRule(s, ["코어"])
  }

  function Watts(s: string): Option<string> {
    DigitsRule(s, ["W"])
  }

  function Gigabytes(s: string): Option<string> {
    DigitsRule(s, ["GB"])
  }

  function MemoryCapacity(s: string): Option<string> {
    DigitsRule(s, ["GB", "TB"])
  }

  function MemoryType(s: string): Option<string> {
    First(s, (i: nat) => DdrAt(s, i))
  }

  function MemoryClock(s: string): Option<string> {
    First(s, (i: nat) => FourDigitsAt(s, i))
  }

  function DriveCapacity(s: string): Option<string> {
    First(s, (i: nat) => CapacityAt(s, i))
  }

  function Certification(s: string): Option<string> {
    First(s, (i: nat) => CertAt(s, i))
  }

  function Chipset(s: string): Option<string> {
    First(s, (i: nat) => ChipsetAt(s, i))
  }

  /**
    `match` with the `g` flag: every match from index `lo` up to `hi`, each
    search resuming where the previous match ended (one further on after an
    empty match).
  */
  function AllMatches(at: nat -> Option<string>, lo: nat, hi: nat): seq<string>
    decreases hi - lo
  {
    if lo >= hi then []
    else
      match Search(at, lo, hi)
      case None => []
      case Some((i, t)) => [t] + AllMatches(at, if t == [] then i + 1 else i + |t|, hi)
  }

  /** The match list is empty exactly when the pattern matches nowhere from `lo` on. */
  lemma AllMatchesEmpty(at: nat -> Option<string>, lo: nat, hi: nat)
    ensures AllMatches(at, lo, hi) == [] <==> forall j :: lo <= j < hi ==> at(j).None?
  {
    SearchIsLeftmost(at, lo, hi);
  }

  /**
    A non-empty match list starts with what the pattern yields at its
    leftmost start from `lo`, and goes on with the list from where that
    match ends.
  */
  lemma AllMatchesHead(at: nat -> Option<string>, lo: nat, hi: nat)
    requires AllMatches(at, lo, hi) != []
    ensures exists i ::
      && lo <= i < hi && at(i) == Some(AllMatches(at, lo, hi)[0])
      && (forall j :: lo <= j < i ==> at(j).None?)
      && var t := AllMatches(at, lo, hi)[0];
         AllMatches(at, lo, hi)[1..] == AllMatches(at, if t == [] then i + 1 else i + |t|, hi)
  {
    SearchIsLeftmost(at, lo, hi);
  }

  /** Every element of the match list is what the pattern yields at some start from `lo` on. */
  lemma {:induction false} AllMatchesAreMatches(at: nat -> Option<string>, lo: nat, hi: nat)
    ensures forall t :: t in AllMatches(at, lo, hi) ==> exists i :: lo <= i < hi && at(i) == Some(t)
    decreases hi - lo
  {
    if lo < hi {
      match Search(at, lo, hi)
      case None =>
      case Some((i, t)) =>
        AllMatchesAreMatches(at, if t == [] then i + 1 else i + |t|, hi);
    }
  }

  /** The clock pattern tried at each start index of `s`. */
  function Clocks(s: string): nat -> Option<string> {
    (i: nat) => ClockAt(s, i)
  }

  /** Every clock in `s`, in order, as `name.match(/…/g)` lists them. */
  function ClockMatches(s: string): seq<string> {
    AllMatches(Clocks(s), 0, |s|)
  }

  /** Element `k` of a match list, when there is one. */
  function Nth(matches: seq<string>, k: nat): Option<string> {
    if k < |matches| then Some(matches[k]) else None
  }

  function Or(o: Option<string>): string {
    if o.Some? then o.value else "-"
  }

  /** SSD type: `SSD` when the upper-cased name contains it, else `HDD` when it contains that. */
  function DriveType(upperName: string): Option<string> {
    if Contains(upperName, "SSD") then Some("SSD")
    else if Contains(upperName, "HDD") then Some("HDD")
    else None
  }

  /** SSD interface: `NVMe` when the upper-cased name contains `NVME`, else `SATA` when it contains that. */
  function Interface(upperName: string): Option<string> {
    if Contains(upperName, "NVME") then Some("NVMe")
    else if Contains(upperName, "SATA") then Some("SATA")
    else None
  }

  /** `case "CPU"`: cores, the first two clocks, TDP. */
  function CpuRules(name: string): seq<Option<string>> {
    var clocks := ClockMatches(name);
    [None, Cores(name), Nth(clocks, 0), Nth(clocks, 1), Watts(name)]
  }

  /** `case "메모리"`: capacity, DDR generation, clock. */
  function MemoryRules(name: string): seq<Option<string>> {
    [None, MemoryCapacity(name), MemoryType(name), MemoryClock(name)]
  }

  /** `case "SSD"`: capacity, drive type, interface. */
  function DriveRules(name: string): seq<Option<string>> {
    [None, DriveCapacity(name), DriveType(Upper(name)), Interface(Upper(name))]
  }

  /** `case "파워서플라이"`: output and certification; the fan size has no rule. */
  function PowerRules(name: string): seq<Option<string>> {
    [None, Watts(name), Certification(name), None]
  }

  /** `case "그래픽카드"`: chipset and memory; the core clock has no rule. */
  function GraphicsRules(name: string): seq<Option<string>> {
    [None, Chipset(name), Gigabytes(name), None]
  }

  /** The category's rules as the `switch` applies them: each overwrites its slot only when its pattern matches. */
  function RuleSlots(name: string, c: Category): seq<Option<string>> {
    match c
    case Cpu => CpuRules(name)
    case Memory => MemoryRules(name)
    case Drive => DriveRules(name)
    case Power => PowerRules(name)
    case Graphics => GraphicsRules(name)
    case _ => []
  }

  /** `base` with every slot that a rule fills replaced by what the rule yields. */
  function Overwrite(base: seq<string>, rules: seq<Option<string>>): (r: seq<string>)
    ensures |r| == |base|
    ensures forall k :: 0 <= k < |base| ==> r[k] == if k < |rules| && rules[k].Some? then rules[k].value else base[k]
  {
    seq(|base|, k requires 0 <= k < |base| => if k < |rules| && rules[k].Some? then rules[k].value else base[k])
  }

  /**
    The vector `extractSpecs` returns for `name` in category `part`: one slot
    per label, all `"-"`, then the maker found in slot 0 and the category's
    rules in theirs; nothing for a part that is not a category.
  */
  function Specs(name: string, part: string): (r: seq<string>)
    ensures |r| == |Labels(part)|
    ensures CategoryOf(part).None? ==> r == []
  {
    match CategoryOf(part)
    case None => []
    case Some(c) =>
      var blank := seq(|CategoryLabels(c)|, _ => "-");
      Overwrite(blank[0 := Or(FindMaker(Upper(name), CategoryMakers(c)))], RuleSlots(name, c))
  }

  /** `base` with slot `k` set to what a rule yields, when it yields something. */
  function Fill(base: seq<string>, k: nat, o: Option<string>): (r: seq<string>)
    requires k < |base|
    ensures |r| == |base| && r[k] == (if o.Some? then o.value else base[k])
    ensures forall j :: 0 <= j < |base| && j != k ==> r[j] == base[j]
  {
    if o.Some? then base[k := o.value] else base
  }

  /** Applying rules slot by slot, in order, is overwriting with all of them at once. */
  lemma FillsOverwrite(base: seq<string>, o1: Option<string>, o2: Option<string>, o3: Option<string>)
    requires |base| == 4
    ensures Overwrite(base, [None, o1, o2, o3]) == Fill(Fill(Fill(base, 1, o1), 2, o2), 3, o3)
  {
  }

  lemma FillsOverwriteFive(base: seq<string>, o1: Option<string>, o2: Option<string>, o3: Option<string>, o4: Option<string>)
    requires |base| == 5
    ensures Overwrite(base, [None, o1, o2, o3, o4]) == Fill(Fill(Fill(Fill(base, 1, o1), 2, o2), 3, o3), 4, o4)
  {
  }

  /** One rule of the `switch`: a match overwrites slot `k`, no match leaves it. */
  method Put(result: array<string>, k: nat, o: Option<string>)
    requires k < result.Length
    modifies result
    ensures result[..] == Fill(old(result[..]), k, o)
  {
    if o.Some? {
      result[k] := o.value;
    }
  }

  method ApplyCpuRules(result: array<string>, name: string)
    requires result.Length == 5
    modifies result
    ensures result[..] == Overwrite(old(result[..]), CpuRules(name))
  {
    ghost var before := result[..];
    var cores := Cores(name);
    Put(result, 1, cores);
    var clocks := ClockMatches(name);
    Put(result, 2, Nth(clocks, 0));
    Put(result, 3, Nth(clocks, 1));
    var tdp := Watts(name);
    Put(result, 4, tdp);
    FillsOverwriteFive(before, cores, Nth(clocks, 0), Nth(clocks, 1), tdp);
  }

  method ApplyMemoryRules(result: array<string>, name: string)
    requires result.Length == 4
    modifies result
    ensures result[..] == Overwrite(old(result[..]), MemoryRules(name))
  {
    ghost var before := result[..];
    var capacity := MemoryCapacity(name);
    Put(result, 1, capacity);
    var kind := MemoryType(name);
    Put(result, 2, kind);
    var clock := MemoryClock(name);
    Put(result, 3, clock);
    FillsOverwrite(before, capacity, kind, clock);
  }

  method ApplyDriveRules(result: array<string>, name: string)
    requires result.Length == 4
    modifies result
    ensures result[..] == Overwrite(old(result[..]), DriveRules(name))
  {
    ghost var before := result[..];
    var capacity := DriveCapacity(name);
    Put(result, 1, capacity);
    var kind := DriveType(Upper(name));
    Put(result, 2, kind);
    var bus := Interface(Upper(name));
    Put(result, 3, bus);
    FillsOverwrite(before, capacity, kind, bus);
  }

  method ApplyPowerRules(result: array<string>, name: string)
    requires result.Length == 4
    modifies result
    ensures result[..] == Overwrite(old(result[..]), PowerRules(name))
  {
    ghost var before := result[..];
    var watt := Watts(name);
    Put(result, 1, watt);
    var cert := Certification(name);
    Put(result, 2, cert);
    FillsOverwrite(before, watt, cert, None);
  }

  method ApplyGraphicsRules(result: array<string>, name: string)
    requires result.Length == 4
    modifies result
    ensures result[..] == Overwrite(old(result[..]), GraphicsRules(name))
  {
    ghost var before := result[..];
    var chipset := Chipset(name);
    Put(result, 1, chipset);
    var memory := Gigabytes(name);
    Put(result, 2, memory);
    FillsOverwrite(before, chipset, memory, None);
  }

  /** The `switch (part)` of `extractSpecs`: each case applies its category's rules; the other categories have none. */
  method ApplyRules(result: array<string>, name: string, c: Category)
    requires result.Length == |CategoryLabels(c)|
    modifies result
    ensures result[..] == Overwrite(old(result[..]), RuleSlots(name, c))
  {
    match c
    case Cpu => ApplyCpuRules(result, name);
    case Memory => ApplyMemoryRules(result, name);
    case Drive => ApplyDriveRules(result, name);
    case Power => ApplyPowerRules(result, name);
    case Graphics => ApplyGraphicsRules(result, name);
    case _ => assert result[..] == Overwrite(result[..], []);
  }

  /**
    `extractSpecs`: a vector of `"-"` as long as the label list, the maker
    in slot 0 when one is found, then the category's rules. A part that is
    not a category has no labels and no makers, and no case of the switch
    matches it.
  */
  method ExtractSpecs(name: string, part: string) returns (specs: seq<string>)
    ensures specs == Specs(name, part)
  {
    var result := new string[|Labels(part)|](_ => "-");
    var found := FindMaker(Upper(name), Makers(part));
    if found.Some? {
      result[0] := found.value;
    }
    var category := CategoryOf(part);
    if category.Some? {
      ApplyRules(result, name, category.value);
    }
    specs := result[..];
  }

  // ---------------------------------------------------------------------------
  // What the vector holds

  /** Every category is found again from its key. */
  lemma KeyRoundTrip(c: Category)
    ensures CategoryOf(Key(c)) == Some(c)
  {
  }

  /** A slot that none of its category's rules fill keeps its `"-"`. */
  lemma UnfilledSlots(name: string, c: Category, k: nat)
    requires 0 < k < |CategoryLabels(c)|
    requires k >= |RuleSlots(name, c)| || RuleSlots(name, c)[k].None?
    ensures Specs(name, Key(c))[k] == "-"
  {
    SlotOf(name, c, k);
  }

  /** Slot `k` of the vector: the maker in slot 0, else what the category's rule for the slot yields, else `"-"`. */
  lemma SlotOf(name: string, c: Category, k: nat)
    requires 0 <= k < |CategoryLabels(c)|
    ensures Specs(name, Key(c))[k] ==
      if k == 0 then Or(FindMaker(Upper(name), CategoryMakers(c)))
      else if k < |RuleSlots(name, c)| && RuleSlots(name, c)[k].Some? then RuleSlots(name, c)[k].value
      else "-"
  {
    KeyRoundTrip(c);
    assert RuleSlots(name, c) == [] || RuleSlots(name, c)[0].None?;
  }

  /** Motherboard and case slots 1 to 3 have no rule and always stay `"-"`. */
  lemma NeverFilled(name: string)
    ensures forall k :: 1 <= k < 4 ==> Specs(name, "메인보드")[k] == "-" && Specs(name, "케이스")[k] == "-"
  {
    RuleFreeSlots(name, Mainboard);
    RuleFreeSlots(name, Case);
    assert Key(Mainboard) == "메인보드" && Key(Case) == "케이스";
  }

  /** A category without rules keeps `"-"` in slots 1 to 3. */
  lemma RuleFreeSlots(name: string, c: Category)
    requires c == Mainboard || c == Case
    ensures forall k :: 1 <= k < 4 ==> Specs(name, Key(c))[k] == "-"
  {
    assert RuleSlots(name, c) == [];
    forall k | 1 <= k < 4
      ensures Specs(name, Key(c))[k] == "-"
    {
      UnfilledSlots(name, c, k);
    }
  }

  /** The power supply's fan size and the graphics card's core clock have no rule and always stay `"-"`. */
  lemma NoRuleSlots(name: string)
    ensures Specs(name, "파워서플라이")[3] == "-" && Specs(name, "그래픽카드")[3] == "-"
  {
    UnfilledSlots(name, Power, 3);
    UnfilledSlots(name, Graphics, 3);
  }

  /**
    Slot 0 stays `"-"` exactly when the upper-cased name contains none of
    the category's makers upper-cased; otherwise it holds the first of them
    in list order that it contains.
  */
  lemma MakerSlot(name: string, part: string)
    requires CategoryOf(part).Some?
    ensures Specs(name, part)[0] == "-" <==> forall m :: m in Makers(part) ==> !Contains(Upper(name), Upper(m))
    ensures Specs(name, part)[0] != "-" ==> exists k ::
      && 0 <= k < |Makers(part)| && Makers(part)[k] == Specs(name, part)[0]
      && Contains(Upper(name), Upper(Makers(part)[k]))
      && forall j :: 0 <= j < k ==> !Contains(Upper(name), Upper(Makers(part)[j]))
  {
    var c := CategoryOf(part).value;
    SlotOf(name, c, 0);
    FindMakerIsFirst(Upper(name), CategoryMakers(c));
  }

  /**
    The SSD type slot holds `SSD` when the upper-cased name contains it,
    else `HDD` when it contains that, else `"-"`; the interface slot holds
    `NVMe` before `SATA` in the same way.
  */
  lemma DriveSlots(name: string)
    ensures var r := Specs(name, "SSD"); var u := Upper(name);
      && (r[2] == "SSD" <==> Contains(u, "SSD"))
      && (r[2] == "HDD" <==> !Contains(u, "SSD") && Contains(u, "HDD"))
      && (r[2] == "-" <==> !Contains(u, "SSD") && !Contains(u, "HDD"))
      && (r[3] == "NVMe" <==> Contains(u, "NVME"))
      && (r[3] == "SATA" <==> !Contains(u, "NVME") && Contains(u, "SATA"))
      && (r[3] == "-" <==> !Contains(u, "NVME") && !Contains(u, "SATA"))
  {
    DriveVector(name);
  }

  /**
    The certification slot stays `"-"` exactly when no start index of the
    name matches the certification pattern; otherwise it is `80 PLUS ` and a
    tier name as the name writes it.
  */
  lemma CertificationSlot(name: string)
    ensures var r := Specs(name, "파워서플라이")[2];
      && (r == "-" <==> forall i :: 0 <= i < |name| ==> CertAt(name, i).None?)
      && (r != "-" ==> exists k: nat, w :: w in Tiers && OccursAtIgnoringCase(name, w, k) && r == "80 PLUS " + name[k..k + |w|])
  {
    PowerVector(name);
    var at := (i: nat) => CertAt(name, i);
    FirstIsLeftmost(name, at);
    if Certification(name).Some? {
      var i :| 0 <= i < |name| && at(i) == Certification(name);
      assert CertAt(name, i) == Certification(name);
      CertShape(name, i);
    } else {
      forall i | 0 <= i < |name|
        ensures CertAt(name, i).None?
      {
        assert at(i).None?;
      }
    }
  }

  /** The memory vector slot by slot: the capacity, the DDR generation and the clock the rules yield, or `"-"`. */
  lemma MemoryVector(name: string)
    ensures var r := Specs(name, "메모리");
      && r[1] == Or(MemoryCapacity(name)) && r[2] == Or(MemoryType(name)) && r[3] == Or(MemoryClock(name))
  {
    SlotOf(name, Memory, 1);
    SlotOf(name, Memory, 2);
    SlotOf(name, Memory, 3);
  }

  /** The SSD vector slot by slot: the capacity, the drive type and the interface the rules yield, or `"-"`. */
  lemma DriveVector(name: string)
    ensures var r := Specs(name, "SSD");
      && r[1] == Or(DriveCapacity(name)) && r[2] == Or(DriveType(Upper(name))) && r[3] == Or(Interface(Upper(name)))
  {
    SlotOf(name, Drive, 1);
    SlotOf(name, Drive, 2);
    SlotOf(name, Drive, 3);
  }

  /** The power supply vector slot by slot: the output and the certification the rules yield, or `"-"`. */
  lemma PowerVector(name: string)
    ensures var r := Specs(name, "파워서플라이");
      && r[1] == Or(Watts(name)) && r[2] == Or(Certification(name))
  {
    SlotOf(name, Power, 1);
    SlotOf(name, Power, 2);
  }

  /** The graphics card vector slot by slot: the chipset and the memory the rules yield, or `"-"`. */
  lemma GraphicsVector(name: string)
    ensures var r := Specs(name, "그래픽카드");
      && r[1] == Or(Chipset(name)) && r[2] == Or(Gigabytes(name))
  {
    SlotOf(name, Graphics, 1);
    SlotOf(name, Graphics, 2);
  }

  /** The CPU vector slot by slot: the cores, the first two clocks and the TDP the rules yield, or `"-"`. */
  lemma CpuVector(name: string)
    ensures var r := Specs(name, "CPU");
      && r[1] == Or(Cores(name)) && r[4] == Or(Watts(name))
      && r[2] == Or(Nth(ClockMatches(name), 0)) && r[3] == Or(Nth(ClockMatches(name), 1))
  {
    SlotOf(name, Cpu, 1);
    SlotOf(name, Cpu, 2);
    SlotOf(name, Cpu, 3);
    SlotOf(name, Cpu, 4);
  }

  /** The core-count slot stays `"-"` exactly when no digit run in the name is directly followed by `코어`. */
  lemma CpuCoresSlot(name: string)
    ensures Specs(name, "CPU")[1] == "-" <==> forall j :: 0 <= j < |name| ==> !MatchesDigitsUnit(name, ["코어"], j)
  {
    CpuVector(name);
    DigitsSlot(name, ["코어"]);
  }

  /** The TDP slot stays `"-"` exactly when no digit run in the name is directly followed by `W`. */
  lemma CpuTdpSlot(name: string)
    ensures Specs(name, "CPU")[4] == "-" <==> forall j :: 0 <= j < |name| ==> !MatchesDigitsUnit(name, ["W"], j)
  {
    CpuVector(name);
    DigitsSlot(name, ["W"]);
  }

  /** A clock read off the name starts with a digit, so it is never the placeholder. */
  lemma ClockNotPlaceholder(s: string, i: nat)
    requires ClockAt(s, i).Some?
    ensures ClockAt(s, i).value != "-"
  {
    ClockShape(s, i);
    assert ClockAt(s, i).value[0] == s[i];
  }

  /**
    The base-clock slot stays `"-"` exactly when the name holds no clock at
    all, and the boost-clock slot is filled only when the base-clock slot is.
  */
  lemma CpuClockSlots(name: string)
    ensures var r := Specs(name, "CPU");
      && (r[2] == "-" <==> forall j :: 0 <= j < |name| ==> ClockAt(name, j).None?)
      && (r[3] != "-" ==> r[2] != "-")
  {
    CpuVector(name);
    AllMatchesEmpty(Clocks(name), 0, |name|);
    if ClockMatches(name) != [] {
      AllMatchesHead(Clocks(name), 0, |name|);
      var i :| 0 <= i < |name| && Clocks(name)(i) == Some(ClockMatches(name)[0]);
      assert ClockAt(name, i) == Some(ClockMatches(name)[0]);
      ClockNotPlaceholder(name, i);
    } else {
      forall j | 0 <= j < |name|
        ensures ClockAt(name, j).None?
      {
        assert Clocks(name)(j).None?;
      }
    }
  }

  /** What a digits-and-unit rule yields is never the placeholder, and it yields nothing exactly when its pattern matches nowhere. */
  lemma DigitsSlot(s: string, units: seq<string>)
    requires UnitsAfterDigits(units)
    ensures var r := DigitsRule(s, units);
      && (r.None? <==> forall j :: 0 <= j < |s| ==> !MatchesDigitsUnit(s, units, j))
      && (r.Some? ==> r.value != "-")
  {
    DigitsUnitRuleNone(s, units);
    var at := (i: nat) => DigitsUnitAt(s, units, i);
    FirstIsLeftmost(s, at);
    if First(s, at).Some? {
      var i :| 0 <= i < |s| && at(i) == First(s, at);
      assert DigitsUnitAt(s, units, i) == First(s, at);
      DigitsUnitShape(s, units, i);
    }
  }

  /** The memory capacity slot stays `"-"` exactly when no digit run in the name is followed by `GB` or `TB`. */
  lemma MemoryCapacitySlot(name: string)
    ensures Specs(name, "메모리")[1] == "-" <==> forall j :: 0 <= j < |name| ==> !MatchesDigitsUnit(name, ["GB", "TB"], j)
  {
    MemoryVector(name);
    DigitsSlot(name, ["GB", "TB"]);
  }

  /** The memory type slot holds the leftmost `DDR` and digit, in any case, upper-cased, and stays `"-"` only when there is none. */
  lemma MemoryTypeSlot(name: string)
    ensures var r := Specs(name, "메모리")[2];
      && (r == "-" <==> forall j :: 0 <= j < |name| ==> DdrAt(name, j).None?)
      && (r != "-" ==> exists i ::
          && 0 <= i < |name| && DdrAt(name, i).Some? && r == Upper(name[i..i + 4])
          && forall j :: 0 <= j < i ==> DdrAt(name, j).None?)
  {
    MemoryVector(name);
    var at := (i: nat) => DdrAt(name, i);
    FirstIsLeftmost(name, at);
    if MemoryType(name).Some? {
      var i :| 0 <= i < |name| && at(i) == MemoryType(name) && forall j :: 0 <= j < i ==> at(j).None?;
      assert DdrAt(name, i) == MemoryType(name);
      forall j | 0 <= j < i
        ensures DdrAt(name, j).None?
      {
        assert at(j).None?;
      }
    } else {
      forall j | 0 <= j < |name|
        ensures DdrAt(name, j).None?
      {
        assert at(j).None?;
      }
    }
  }

  /** The memory clock slot holds the leftmost four digits with `MHz` appended, and stays `"-"` only when the name has no four digits in a row. */
  lemma MemoryClockSlot(name: string)
    ensures var r := Specs(name, "메모리")[3];
      && (r == "-" <==> forall j :: 0 <= j < |name| ==> FourDigitsAt(name, j).None?)
      && (r != "-" ==> exists i: nat ::
          && FourDigitsAt(name, i).Some? && r == name[i..i + 4] + "MHz"
          && forall j :: 0 <= j < i ==> FourDigitsAt(name, j).None?)
  {
    MemoryVector(name);
    var at := (i: nat) => FourDigitsAt(name, i);
    FirstIsLeftmost(name, at);
    if MemoryClock(name).Some? {
      var i :| 0 <= i < |name| && at(i) == MemoryClock(name) && forall j :: 0 <= j < i ==> at(j).None?;
      assert FourDigitsAt(name, i) == MemoryClock(name);
      forall j | 0 <= j < i
        ensures FourDigitsAt(name, j).None?
      {
        assert at(j).None?;
      }
    } else {
      forall j | 0 <= j < |name|
        ensures FourDigitsAt(name, j).None?
      {
        assert at(j).None?;
      }
    }
  }

  /**
    The SSD capacity slot holds a number that may have a fraction, then `TB`
    or `GB`, as the name writes it, and stays `"-"` only when no start index
    matches the capacity pattern.
  */
  lemma DriveCapacitySlot(name: string)
    ensures var r := Specs(name, "SSD")[1];
      && (r == "-" <==> forall j :: 0 <= j < |name| ==> CapacityAt(name, j).None?)
      && (r != "-" ==> exists i: nat, f: nat, u :: i < f <= |name| && DecimalNumber(name[i..f]) && u in CapacityUnits && OccursAt(name, u, f) && r == name[i..f] + u)
  {
    DriveVector(name);
    var at := (i: nat) => CapacityAt(name, i);
    FirstIsLeftmost(name, at);
    if DriveCapacity(name).Some? {
      var i :| 0 <= i < |name| && at(i) == DriveCapacity(name);
      assert CapacityAt(name, i) == DriveCapacity(name);
      CapacityShape(name, i);
    } else {
      forall j | 0 <= j < |name|
        ensures CapacityAt(name, j).None?
      {
        assert at(j).None?;
      }
    }
  }

  /** The graphics memory slot stays `"-"` exactly when no digit run in the name is followed by `GB`. */
  lemma GraphicsMemorySlot(name: string)
    ensures Specs(name, "그래픽카드")[2] == "-" <==> forall j :: 0 <= j < |name| ==> !MatchesDigitsUnit(name, ["GB"], j)
  {
    GraphicsVector(name);
    DigitsSlot(name, ["GB"]);
  }

  /**
    The graphics chipset slot holds upper-cased text of the name that ends
    in four digits, and stays `"-"` only when no start index matches the
    chipset pattern.
  */
  lemma GraphicsChipsetSlot(name: string)
    ensures var r := Specs(name, "그래픽카드")[1];
      && (r == "-" <==> forall j :: 0 <= j < |name| ==> ChipsetAt(name, j).None?)
      && (r != "-" ==> exists i: nat, n: nat :: i + 4 < n <= |name| && r == Upper(name[i..n]) && AllDigits(name[n - 4..n]))
  {
    GraphicsVector(name);
    var at := (i: nat) => ChipsetAt(name, i);
    FirstIsLeftmost(name, at);
    if Chipset(name).Some? {
      var i :| 0 <= i < |name| && at(i) == Chipset(name);
      assert ChipsetAt(name, i) == Chipset(name);
      ChipsetShape(name, i);
    } else {
      forall j | 0 <= j < |name|
        ensures ChipsetAt(name, j).None?
      {
        assert at(j).None?;
      }
    }
  }
}
