/** Keyword search with LIKE: the keyword is escaped so that it stands for itself. */
module LikeEscape {
  import opened Options

  const ESCAPE: char := '\\'

  predicate Special(c: char) { c == '%' || c == '_' || c == ESCAPE }

  // ----- Escaping

  /** Put `r` in the place of every occurrence of `c`. */
  function ReplaceAll(s: string, c: char, r: string): string {
    if s == [] then [] else (if s[0] == c then r else [s[0]]) + ReplaceAll(s[1..], c, r)
  }

  function EscapeLike(s: string): string {
    ReplaceAll(ReplaceAll(ReplaceAll(s, ESCAPE, [ESCAPE, ESCAPE]), '%', [ESCAPE, '%']), '_', [ESCAPE, '_'])
  }

  function EscapeChar(c: char): string { if Special(c) then [ESCAPE, c] else [c] }

  /** Every special character is escaped once, in one pass. */
  function Escaped(s: string): string {
    if s == [] then [] else EscapeChar(s[0]) + Escaped(s[1..])
  }

  lemma {:induction false} ReplaceConcat(s: string, t: string, c: char, r: string)
    ensures ReplaceAll(s + t, c, r) == ReplaceAll(s, c, r) + ReplaceAll(t, c, r)
  {
    if s == [] {
      assert s + t == t;
    } else {
      assert (s + t)[1..] == s[1..] + t;
      ReplaceConcat(s[1..], t, c, r);
    }
  }

  lemma ReplaceFew(c: char, r: string, d: char, e: char)
    ensures ReplaceAll([d], c, r) == if d == c then r else [d]
    ensures ReplaceAll([d, e], c, r) == ReplaceAll([d], c, r) + ReplaceAll([e], c, r)
  {
    assert [d, e][1..] == [e] && [d][1..] == [] && [e][1..] == [];
  }

  /** No replacement touches what an earlier one has inserted: the three of them are one pass. */
  lemma {:induction false} ThreePassesAreOne(s: string)
    ensures EscapeLike(s) == Escaped(s)
  {
    if s != [] {
      var c, rest := s[0], s[1..];
      ThreePassesAreOne(rest);
      var a := if c == ESCAPE then [ESCAPE, ESCAPE] else [c];
      var b := if c == '%' then [ESCAPE, '%'] else a;
      var first := ReplaceAll(rest, ESCAPE, [ESCAPE, ESCAPE]);
      var second := ReplaceAll(first, '%', [ESCAPE, '%']);
      ReplaceConcat(a, first, '%', [ESCAPE, '%']);
      ReplaceFew('%', [ESCAPE, '%'], c, c);
      ReplaceConcat(b, second, '_', [ESCAPE, '_']);
      ReplaceFew('_', [ESCAPE, '_'], ESCAPE, c);
      ReplaceFew('_', [ESCAPE, '_'], c, c);
      assert ReplaceAll(a + first, '%', [ESCAPE, '%']) == b + second;
      assert ReplaceAll(b + second, '_', [ESCAPE, '_']) == EscapeChar(c) + ReplaceAll(second, '_', [ESCAPE, '_']);
    }
  }

  // ----- The like predicate, section 8.5 of SQL-92

  datatype Token = AnyString | AnyChar | Exactly(c: char)

  /** What a pattern means; the escape character must precede a special one. */
  function Tokens(pattern: string): Option<seq<Token>> {
    if pattern == [] then Some([])
    else if pattern[0] == ESCAPE then
      if |pattern| >= 2 && Special(pattern[1]) then Prefixed(Exactly(pattern[1]), Tokens(pattern[2..])) else None
    else
      var t := if pattern[0] == '%' then AnyString else if pattern[0] == '_' then AnyChar else Exactly(pattern[0]);
      Prefixed(t, Tokens(pattern[1..]))
  }

  function Prefixed(t: Token, ts: Option<seq<Token>>): Option<seq<Token>> {
    if ts.Some? then Some([t] + ts.value) else None
  }

  predicate Matches(s: string, ts: seq<Token>)
    decreases |ts|, |s|
  {
    if ts == [] then s == []
    else
      match ts[0]
      case Exactly(c) => s != [] && s[0] == c && Matches(s[1..], ts[1..])
      case AnyChar => s != [] && Matches(s[1..], ts[1..])
      case AnyString => Matches(s, ts[1..]) || (s != [] && Matches(s[1..], ts))
  }

  predicate Like(s: string, pattern: string) {
    var ts := Tokens(pattern);
    ts.Some? && Matches(s, ts.value)
  }

  /** The characters themselves. */
  function Literal(s: string): seq<Token> {
    if s == [] then [] else [Exactly(s[0])] + Literal(s[1..])
  }

  lemma EscapedCharReadsBack(c: char, rest: string)
    requires Tokens(rest).Some?
    ensures Tokens(EscapeChar(c) + rest) == Some([Exactly(c)] + Tokens(rest).value)
  {
    var p := EscapeChar(c) + rest;
    if Special(c) {
      assert p[0] == ESCAPE && p[1] == c && p[2..] == rest;
    } else {
      assert p[0] == c && p[1..] == rest;
    }
  }

  /** Printer against reader: an escaped string is read back as its characters. */
  lemma {:induction false} EscapedReadsBack(s: string, tail: string)
    requires Tokens(tail).Some?
    ensures Tokens(Escaped(s) + tail) == Some(Literal(s) + Tokens(tail).value)
  {
    var ts := Tokens(tail).value;
    if s == [] {
      assert Escaped(s) + tail == tail && Literal(s) + ts == ts;
    } else {
      EscapedReadsBack(s[1..], tail);
      EscapedCharReadsBack(s[0], Escaped(s[1..]) + tail);
      assert Escaped(s) + tail == EscapeChar(s[0]) + (Escaped(s[1..]) + tail);
      assert Literal(s) + ts == [Exactly(s[0])] + (Literal(s[1..]) + ts);
    }
  }

  // ----- What the search finds

  predicate IsAt(s: string, kw: string, i: nat) { i + |kw| <= |s| && s[i..i + |kw|] == kw }

  ghost predicate Contains(s: string, kw: string) { exists i: nat :: IsAt(s, kw, i) }

  lemma {:induction false} AnyStringMatchesAll(s: string)
    ensures Matches(s, [AnyString])
  {
    assert [AnyString][1..] == [];
    if s != [] {
      AnyStringMatchesAll(s[1..]);
    }
  }

  lemma {:induction false} LiteralMatchesPrefix(s: string, kw: string)
    ensures Matches(s, Literal(kw) + [AnyString]) <==> IsAt(s, kw, 0)
  {
    var ts := Literal(kw) + [AnyString];
    if kw == [] {
      assert ts == [AnyString];
      AnyStringMatchesAll(s);
    } else {
      assert ts[0] == Exactly(kw[0]) && ts[1..] == Literal(kw[1..]) + [AnyString];
      if s != [] {
        LiteralMatchesPrefix(s[1..], kw[1..]);
        assert |kw| <= |s| ==> s[..|kw|] == [s[0]] + s[1..][..|kw| - 1];
        assert kw == [kw[0]] + kw[1..];
      }
    }
  }

  lemma {:induction false} AnyStringSkips(s: string, kw: string)
    ensures Matches(s, [AnyString] + (Literal(kw) + [AnyString])) <==> Contains(s, kw)
  {
    var ts := [AnyString] + (Literal(kw) + [AnyString]);
    assert ts[1..] == Literal(kw) + [AnyString];
    LiteralMatchesPrefix(s, kw);
    if s == [] {
      assert Contains(s, kw) ==> IsAt(s, kw, 0);
    } else {
      AnyStringSkips(s[1..], kw);
      ContainsLater(s, kw);
    }
  }

  lemma ContainsLater(s: string, kw: string)
    requires s != []
    ensures Contains(s, kw) <==> IsAt(s, kw, 0) || Contains(s[1..], kw)
  {
    forall i: nat ensures IsAt(s, kw, i + 1) <==> IsAt(s[1..], kw, i) {
      if i + 1 + |kw| <= |s| {
        var a, b := s[i + 1..i + 1 + |kw|], s[1..][i..i + |kw|];
        assert |a| == |b| && forall k :: 0 <= k < |a| ==> a[k] == s[i + 1 + k] == b[k];
        assert a == b;
      }
    }
    if Contains(s, kw) && !IsAt(s, kw, 0) {
      var i: nat :| IsAt(s, kw, i);
      assert IsAt(s, kw, (i - 1) + 1);
      assert IsAt(s[1..], kw, i - 1);
    }
    assert IsAt(s, kw, 0) ==> Contains(s, kw);
    if Contains(s[1..], kw) {
      var i: nat :| IsAt(s[1..], kw, i);
      assert IsAt(s, kw, i + 1);
    }
  }

  function SearchPattern(kw: string): string { "%" + EscapeLike(kw) + "%" }

  /** The search finds exactly the contents that contain the keyword. */
  lemma SearchFindsExactly(s: string, kw: string)
    ensures Like(s, SearchPattern(kw)) <==> Contains(s, kw)
  {
    ThreePassesAreOne(kw);
    assert "%"[1..] == [];
    EscapedReadsBack(kw, "%");
    assert Tokens("%").value == [AnyString];
    var p := SearchPattern(kw);
    assert p[0] == '%' && p[1..] == Escaped(kw) + "%";
    assert Tokens(p) == Prefixed(AnyString, Tokens(p[1..]));
    assert Tokens(p[1..]) == Some(Literal(kw) + [AnyString]);
    assert Tokens(p).value == [AnyString] + (Literal(kw) + [AnyString]);
    AnyStringSkips(s, kw);
  }

  // ----- Escaping is needed whenever it changes anything

  predicate HasSpecial(s: string) { exists i :: 0 <= i < |s| && Special(s[i]) }

  lemma {:induction false} EscapingPlainChangesNothing(s: string)
    requires !HasSpecial(s)
    ensures Escaped(s) == s
  {
    if s != [] {
      assert !Special(s[0]);
      assert forall i :: 0 <= i < |s[1..]| ==> s[1..][i] == s[i + 1];
      EscapingPlainChangesNothing(s[1..]);
    }
  }

  /** A short string that tokens match: nothing for any string, a dash for any character. */
  function Instance(ts: seq<Token>): string {
    if ts == [] then []
    else
      (match ts[0]
       case Exactly(c) => [c]
       case AnyChar => ['-']
       case AnyString => []) + Instance(ts[1..])
  }

  lemma {:induction false} InstanceMatches(ts: seq<Token>)
    ensures Matches(Instance(ts), ts)
  {
    if ts != [] {
      InstanceMatches(ts[1..]);
      if !ts[0].AnyString? {
        assert Instance(ts)[1..] == Instance(ts[1..]);
      } else {
        assert Instance(ts) == Instance(ts[1..]);
      }
    }
  }

  /** The short string of a bare keyword is not longer than it, and differs if anything was special. */
  lemma {:induction false} InstanceOfBare(kw: string)
    requires Tokens(kw + "%").Some?
    ensures var s := Instance(Tokens(kw + "%").value);
      |s| <= |kw| && (HasSpecial(kw) ==> s != kw)
    decreases |kw|
  {
    var p := kw + "%";
    var ts := Tokens(p).value;
    assert Tokens([]) == Some([]);
    if kw == [] {
      assert p[1..] == [];
    } else if p[0] != ESCAPE {
      assert p[1..] == kw[1..] + "%";
      InstanceOfBare(kw[1..]);
      assert ts[1..] == Tokens(p[1..]).value;
      HasSpecialLater(kw);
      if !Special(kw[0]) {
        assert Instance(ts)[1..] == Instance(ts[1..]);
      }
    } else if |kw| == 1 {
      assert p[2..] == [];
      assert ts[1..] == [];
      assert Instance(ts) == "%";
    } else {
      assert p[2..] == kw[2..] + "%";
      InstanceOfBare(kw[2..]);
      assert ts[1..] == Tokens(p[2..]).value;
    }
  }

  lemma HasSpecialLater(s: string)
    requires s != []
    ensures HasSpecial(s) ==> Special(s[0]) || HasSpecial(s[1..])
  {
    if HasSpecial(s) && !Special(s[0]) {
      var i :| 0 <= i < |s| && Special(s[i]);
      assert s[1..][i - 1] == s[i];
    }
  }

  /** A keyword put between the wildcards as it is finds exactly what contains it if and only if it
      has no special character. */
  lemma BareKeywordWorksIff(kw: string)
    ensures (forall s :: Like(s, "%" + kw + "%") <==> Contains(s, kw)) <==> !HasSpecial(kw)
  {
    var p := "%" + kw + "%";
    if !HasSpecial(kw) {
      ThreePassesAreOne(kw);
      EscapingPlainChangesNothing(kw);
      forall s ensures Like(s, p) <==> Contains(s, kw) {
        SearchFindsExactly(s, kw);
      }
    } else {
      assert p[1..] == kw + "%";
      if Tokens(kw + "%").None? {
        ContainsOnlyItself(kw, kw);
        assert Contains(kw, kw) && !Like(kw, p);
      } else {
        var ts := Tokens(kw + "%").value;
        var s := Instance(ts);
        InstanceOfBare(kw);
        InstanceMatches(Tokens(p).value);
        assert Tokens(p) == Prefixed(AnyString, Tokens(p[1..])) && Tokens(p).value == [AnyString] + ts;
        assert ([AnyString] + ts)[0] == AnyString && ([AnyString] + ts)[1..] == ts;
        assert Instance([AnyString] + ts) == [] + Instance(ts) == s;
        assert Like(s, p);
        ContainsOnlyItself(s, kw);
      }
    }
  }

  lemma ContainsOnlyItself(s: string, kw: string)
    requires |s| <= |kw|
    ensures Contains(s, kw) <==> s == kw
  {
    forall i: nat | IsAt(s, kw, i) ensures s == kw {
      assert s[i..i + |kw|] == s;
    }
    assert s == kw ==> IsAt(s, kw, 0);
  }
}
