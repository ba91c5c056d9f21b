/**
 Gmatch, the pattern matcher of csh (bin/csh/sh.glob.c), against a declarative meaning of
 its patterns.
 */
module CshGlob {

  /** What Gmatch can do: answer, give the error "Missing ]", or read past the end of one of
      its strings (which the source leaves undefined). */
  datatype Verdict = Yes | No | MissingBracket | PastEnd

  /** How a bracket ends: at its ']' with the rest of the pattern, or badly. */
  datatype Bracket = Closed(ok: bool, rest: string) | Unclosed | Overrun

  const TRIM := 128
  const NOCHAR := 0x7FFF

  /** *s & TRIM, with 0 at the end of the string. */
  function Code(s: string): (c: int)
    ensures 0 <= c < TRIM
  {
    if s == [] then 0 else s[0] as int % TRIM
  }

  // ---------------------------------------------------------------- the matcher

  function InBracket(scc: int, p: string, ok: bool, lc: int): (b: Bracket)
    ensures b.Closed? ==> |b.rest| < |p|
    decreases |p|
  {
    if p == [] then Unclosed
    else if p[0] == ']' then Closed(ok, p[1..])
    else if p[0] == '-' then
      if lc <= scc then
        if |p| == 1 then Overrun
        else InBracket(scc, p[2..], ok || scc <= p[1] as int, lc)
      else InBracket(scc, p[1..], ok, lc)
    else InBracket(scc, p[1..], ok || scc == p[0] as int, p[0] as int)
  }

  function Glob(s: string, p: string): Verdict
    decreases |p|, |s|, 0
  {
    var scc := Code(s);
    if p == [] then (if scc == 0 then Yes else No)
    else if p[0] == '[' then
      match InBracket(scc, p[1..], false, NOCHAR)
      case Unclosed => MissingBracket
      case Overrun => PastEnd
      case Closed(ok, rest) => if !ok then No else if s == [] then PastEnd else Glob(s[1..], rest)
    else if p[0] == '*' then
      if p[1..] == [] then Yes else SomeTail(s, p[1..])
    else if p[0] == '?' then
      if scc == 0 then No else Glob(s[1..], p[1..])
    else if Code(p) != scc then No
    else if s == [] then PastEnd
    else Glob(s[1..], p[1..])
  }

  /** The loop of the '*' case: the first non-empty tail that is not answered No. */
  function SomeTail(s: string, p: string): Verdict
    decreases |p|, |s|, 1
  {
    if s == [] then No
    else
      var v := Glob(s, p);
      if v == No then SomeTail(s[1..], p) else v
  }

  /** Gmatch, with its loops over the two strings. */
  method Gmatch(s: string, p: string) returns (v: Verdict)
    ensures v == Glob(s, p)
    decreases |p|, 0
  {
    var i, j := 0, 0;
    while true
      invariant 0 <= i <= |s| && 0 <= j <= |p|
      invariant Glob(s[i..], p[j..]) == Glob(s, p)
      decreases |p| - j
    {
      assert j < |p| ==> p[j..][0] == p[j] && p[j..][1..] == p[j + 1..];
      assert i < |s| ==> s[i..][1..] == s[i + 1..];
      var scc := Code(s[i..]);
      if j == |p| {
        return if scc == 0 then Yes else No;
      }
      var c := p[j];
      j := j + 1;
      if c == '[' {
        var b, next := ScanBracket(scc, p, j);
        if b.Unclosed? {
          return MissingBracket;
        } else if b.Overrun? {
          return PastEnd;
        } else if !b.ok {
          return No;
        }
        j := next;
      } else if c == '*' {
        if j == |p| {
          return Yes;
        }
        v := TryTails(s[i..], p[j..]);
        return;
      } else if c == '?' {
        if scc == 0 {
          return No;
        }
      } else if c as int % TRIM != scc {
        return No;
      }
      if i == |s| {
        return PastEnd;
      }
      i := i + 1;
    }
  }

  method TryTails(s: string, p: string) returns (v: Verdict)
    ensures v == SomeTail(s, p)
    decreases |p|, 1
  {
    var k := 0;
    while k < |s|
      invariant 0 <= k <= |s|
      invariant SomeTail(s[k..], p) == SomeTail(s, p)
    {
      v := Gmatch(s[k..], p);
      if v != No {
        return;
      }
      assert s[k..][1..] == s[k + 1..];
      k := k + 1;
    }
    v := No;
  }

  method ScanBracket(scc: int, p: string, start: nat) returns (b: Bracket, next: nat)
    requires start <= |p|
    ensures b == InBracket(scc, p[start..], false, NOCHAR)
    ensures b.Closed? ==> start < next <= |p| && b.rest == p[next..]
  {
    var ok, lc := false, NOCHAR;
    next := start;
    while next < |p|
      invariant start <= next <= |p|
      invariant InBracket(scc, p[next..], ok, lc) == InBracket(scc, p[start..], false, NOCHAR)
      decreases |p| - next
    {
      var cc := p[next];
      assert p[next..][0] == cc && p[next..][1..] == p[next + 1..];
      next := next + 1;
      if cc == ']' {
        return Closed(ok, p[next..]), next;
      }
      if cc == '-' {
        if lc <= scc {
          if next == |p| {
            return Overrun, next;
          }
          assert p[next - 1..][2..] == p[next + 1..];
          ok := ok || scc <= p[next] as int;
          next := next + 1;
        }
      } else {
        lc := cc as int;
        ok := ok || scc == lc;
      }
    }
    return Unclosed, next;
  }

  // ---------------------------------------------------------------- patterns and their meaning

  datatype ClassItem = One(c: char) | Span(lo: char, hi: char)

  datatype Elem = Lit(c: char) | AnyChar | Star | Class(items: seq<ClassItem>)

  type Pattern = seq<Elem>

  predicate Ascii(c: char) { 1 <= c as int < TRIM }

  predicate Text(s: string) { forall c <- s :: Ascii(c) }

  predicate ItemOk(it: ClassItem) {
    match it
    case One(c) => Ascii(c) && c != ']' && c != '-'
    case Span(lo, hi) => Ascii(lo) && lo != ']' && lo != '-' && Ascii(hi) && hi != ']' && lo <= hi
  }

  predicate ElemOk(e: Elem) {
    match e
    case Lit(c) => Ascii(c) && c !in "*?["
    case Class(items) => forall it <- items :: ItemOk(it)
    case _ => true
  }

  predicate WellFormed(p: Pattern) { forall e <- p :: ElemOk(e) }

  /** How a pattern is written. */
  function PrintItems(items: seq<ClassItem>): string {
    if items == [] then ""
    else
      (match items[0]
       case One(c) => [c]
       case Span(lo, hi) => [lo, '-', hi]) + PrintItems(items[1..])
  }

  function Print(p: Pattern): string {
    if p == [] then ""
    else
      (match p[0]
       case Lit(c) => [c]
       case AnyChar => "?"
       case Star => "*"
       case Class(items) => "[" + PrintItems(items) + "]") + Print(p[1..])
  }

  predicate InItem(c: int, it: ClassItem) {
    match it
    case One(d) => c == d as int
    case Span(lo, hi) => lo as int <= c <= hi as int
  }

  predicate InClass(c: int, items: seq<ClassItem>) {
    exists it <- items :: InItem(c, it)
  }

  /** One element that takes exactly one character. */
  predicate Takes(e: Elem, c: char) {
    match e
    case Lit(d) => c == d
    case AnyChar => true
    case Class(items) => InClass(c as int, items)
    case Star => false
  }

  /** The declarative meaning: a star stands for any string, also an empty one. */
  ghost predicate Matches(p: Pattern, s: string)
    decreases |p|, |s|
  {
    if p == [] then s == []
    else if p[0].Star? then exists k :: 0 <= k <= |s| && Matches(p[1..], s[k..])
    else s != [] && Takes(p[0], s[0]) && Matches(p[1..], s[1..])
  }

  /** What the code does: a star with more pattern after it only tries non-empty tails. */
  ghost predicate Accepts(p: Pattern, s: string)
    decreases |p|, |s|
  {
    if p == [] then s == []
    else if p[0].Star? then |p| == 1 || exists k :: 0 <= k < |s| && Accepts(p[1..], s[k..])
    else s != [] && Takes(p[0], s[0]) && Accepts(p[1..], s[1..])
  }

  lemma ClassCons(c: int, items: seq<ClassItem>)
    requires items != []
    ensures InClass(c, items) <==> InItem(c, items[0]) || InClass(c, items[1..])
  {
    assert items == [items[0]] + items[1..];
  }

  lemma {:induction false} BracketMeaning(scc: int, items: seq<ClassItem>, rest: string, ok: bool, lc: int)
    requires forall it <- items :: ItemOk(it)
    ensures InBracket(scc, PrintItems(items) + "]" + rest, ok, lc) == Closed(ok || InClass(scc, items), rest)
    decreases items
  {
    var p := PrintItems(items) + "]" + rest;
    if items == [] {
      assert p == "]" + rest;
    } else {
      var tail := PrintItems(items[1..]) + "]" + rest;
      ClassCons(scc, items);
      assert ItemOk(items[0]);
      match items[0]
      case One(c) =>
        assert p == [c] + tail && p[1..] == tail;
        BracketMeaning(scc, items[1..], rest, ok || scc == c as int, c as int);
      case Span(lo, hi) =>
        assert p == [lo, '-', hi] + tail;
        SpanStep(scc, lo, hi, tail, ok, lc);
        BracketMeaning(scc, items[1..], rest, ok || InItem(scc, items[0]), AfterSpan(scc, lo, hi));
    }
  }

  /** A range skips its upper end only when the character is not below its lower end;
      otherwise the upper end is read as a character of its own, which cannot match. */
  lemma SpanStep(scc: int, lo: char, hi: char, tail: string, ok: bool, lc: int)
    requires ItemOk(Span(lo, hi))
    ensures InBracket(scc, [lo, '-', hi] + tail, ok, lc)
         == InBracket(scc, tail, ok || InItem(scc, Span(lo, hi)), AfterSpan(scc, lo, hi))
  {
    var p := [lo, '-', hi] + tail;
    var q := ['-', hi] + tail;
    var r := [hi] + tail;
    assert p[1..] == q && q[1..] == r && q[2..] == tail && r[1..] == tail;
    var ok1 := ok || scc == lo as int;
    assert InBracket(scc, p, ok, lc) == InBracket(scc, q, ok1, lo as int);
    if lo as int <= scc {
      assert InBracket(scc, q, ok1, lo as int) == InBracket(scc, tail, ok1 || scc <= hi as int, lo as int);
    } else {
      assert InBracket(scc, q, ok1, lo as int) == InBracket(scc, r, ok1, lo as int);
      assert InBracket(scc, r, ok1, lo as int) == InBracket(scc, tail, ok1, AfterSpan(scc, lo, hi));
    }
  }

  function AfterSpan(scc: int, lo: char, hi: char): int {
    if lo as int <= scc || hi == '-' then lo as int else hi as int
  }

  lemma CodeOf(s: string)
    requires Text(s) && s != []
    ensures Code(s) == s[0] as int != 0 && Text(s[1..])
  {
    assert s[0] in s;
  }

  lemma NoNulInClass(items: seq<ClassItem>)
    requires forall it <- items :: ItemOk(it)
    ensures !InClass(0, items)
  {
  }

  /** Gmatch never fails on a well-formed pattern, and says Yes exactly when Accepts. */
  lemma {:induction false} GlobMeaning(p: Pattern, s: string)
    requires WellFormed(p) && Text(s)
    ensures Glob(s, Print(p)) == if Accepts(p, s) then Yes else No
    decreases |p|, |s|, 0
  {
    if s != [] {
      CodeOf(s);
    }
    if p != [] {
      var w := Print(p);
      var rest := Print(p[1..]);
      assert ElemOk(p[0]);
      if s != [] && !p[0].Star? {
        GlobMeaning(p[1..], s[1..]);
      }
      match p[0]
      case Star =>
        assert w == "*" + rest && w[1..] == rest;
        if |p| > 1 {
          PrintNonEmpty(p[1..]);
          TailMeaning(p[1..], s);
        }
      case Class(items) =>
        assert w == "[" + (PrintItems(items) + "]" + rest);
        assert w[1..] == PrintItems(items) + "]" + rest;
        BracketMeaning(Code(s), items, rest, false, NOCHAR);
        if s == [] {
          NoNulInClass(items);
        }
      case AnyChar =>
        assert w == "?" + rest && w[1..] == rest;
      case Lit(c) =>
        assert w == [c] + rest && w[1..] == rest;
    }
  }

  lemma PrintNonEmpty(p: Pattern)
    requires p != []
    ensures Print(p) != []
  {
  }

  lemma {:induction false} TailMeaning(p: Pattern, s: string)
    requires WellFormed(p) && Text(s)
    ensures SomeTail(s, Print(p)) == if exists k :: 0 <= k < |s| && Accepts(p, s[k..]) then Yes else No
    decreases |p|, |s|, 1
  {
    if s != [] {
      GlobMeaning(p, s);
      assert s[0..] == s;
      if !Accepts(p, s) {
        TailMeaning(p, s[1..]);
        assert forall k :: 0 <= k < |s[1..]| ==> s[1..][k..] == s[k + 1..];
        if k :| 0 <= k < |s| && Accepts(p, s[k..]) {
          assert s[1..][k - 1..] == s[k..];
        }
      }
    }
  }

  // ---------------------------------------------------------------- where the two agree

  predicate AllStars(p: Pattern) { forall e <- p :: e.Star? }

  /** The pattern ends in two adjacent stars. */
  predicate EndsTwoStars(p: Pattern) {
    |p| >= 2 && p[|p| - 1].Star? && p[|p| - 2].Star?
  }

  lemma {:induction false} MatchesEmpty(p: Pattern)
    ensures Matches(p, []) <==> AllStars(p)
  {
    if p != [] {
      MatchesEmpty(p[1..]);
      assert p == [p[0]] + p[1..];
      var e: string := [];
      assert e[0..] == e;
    }
  }

  /** Unless the pattern ends in two stars, the code decides the declarative meaning. */
  lemma {:induction false} AcceptsIsMatches(p: Pattern, s: string)
    requires !EndsTwoStars(p)
    ensures Accepts(p, s) <==> Matches(p, s)
    decreases |p|
  {
    if p != [] {
      var q := p[1..];
      assert !EndsTwoStars(q);
      if p[0].Star? {
        forall k | 0 <= k <= |s|
          ensures Accepts(q, s[k..]) <==> Matches(q, s[k..])
        {
          AcceptsIsMatches(q, s[k..]);
        }
        MatchesEmpty(q);
        assert s[|s|..] == [];
        if q == [] {
          assert Matches(q, s[|s|..]);
        }
      } else if s != [] {
        AcceptsIsMatches(q, s[1..]);
      }
    }
  }

  /** A pattern that ends in two stars is accepted only on strings it could shorten. */
  lemma {:induction false} Shorten(p: Pattern, s: string) returns (t: string)
    requires EndsTwoStars(p) && Accepts(p, s) && Text(s)
    ensures |t| < |s| && Matches(p, t) && Text(t)
    decreases |p|
  {
    var q := p[1..];
    if p[0].Star? {
      var k :| 0 <= k < |s| && Accepts(q, s[k..]);
      if EndsTwoStars(q) {
        t := Shorten(q, s[k..]);
        assert t[0..] == t;
      } else {
        t := [];
        MatchesEmpty(p);
      }
    } else {
      var u := Shorten(q, s[1..]);
      t := [s[0]] + u;
      assert t[1..] == u;
    }
  }

  lemma {:induction false} Missed(p: Pattern, s: string) returns (t: string)
    requires EndsTwoStars(p) && Matches(p, s) && Text(s)
    ensures Matches(p, t) && !Accepts(p, t) && Text(t)
    decreases |s|
  {
    if Accepts(p, s) {
      var u := Shorten(p, s);
      t := Missed(p, u);
    } else {
      t := s;
    }
  }

  /** The exact condition: on every text Gmatch agrees with the declarative meaning if and
      only if the pattern, unless nothing matches it at all, does not end in two stars. */
  lemma GlobExact(p: Pattern, sample: string)
    requires WellFormed(p) && Text(sample) && Matches(p, sample)
    ensures (forall s | Text(s) :: Glob(s, Print(p)) == if Matches(p, s) then Yes else No) <==> !EndsTwoStars(p)
  {
    if EndsTwoStars(p) {
      var t := Missed(p, sample);
      GlobMeaning(p, t);
      assert Glob(t, Print(p)) == No;
    } else {
      forall s | Text(s)
        ensures Glob(s, Print(p)) == if Matches(p, s) then Yes else No
      {
        GlobMeaning(p, s);
        AcceptsIsMatches(p, s);
      }
    }
  }

  lemma GlobOf(s: string, c: char, p: string)
    requires s == [c] && c !in "*?[" && Ascii(c)
    ensures Glob(s, [c] + p) == Glob("", p)
  {
    assert ([c] + p)[1..] == p && s[1..] == "";
  }

  lemma EmptyStars()
    ensures Glob("", "*") == Yes && Glob("", "**") == No
  {
    assert "*"[1..] == "" && "**"[1..] == "*";
  }

  /** "a**" does not match "a", although "a*" does. */
  lemma TwoStarsMiss()
    ensures WellFormed([Lit('a'), Star, Star]) && Text("a") && Matches([Lit('a'), Star, Star], "a")
    ensures Glob("a", "a" + "**") == No && Glob("a", "a" + "*") == Yes
  {
    hide Glob, Matches;
    EmptyStars();
    GlobOf("a", 'a', "**");
    GlobOf("a", 'a', "*");
    var p := [Lit('a'), Star, Star];
    MatchesFirst(p, "a");
    assert p[1..] == [Star, Star] && "a"[1..] == "";
    MatchesEmpty(p[1..]);
  }

  lemma MatchesFirst(p: Pattern, s: string)
    requires p != [] && !p[0].Star? && s != [] && Takes(p[0], s[0])
    ensures Matches(p, s) == Matches(p[1..], s[1..])
  {
  }
}
