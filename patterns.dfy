/**
 * Topic patterns: the regular expressions a Recorder registers with
 * AddTopic, matched against the whole topic name (full-string match,
 * not substring search). The model keeps the part of the regex language
 * the recorder's patterns use: literal characters, '.' and '.*'.
 */
module Patterns {

  datatype Token = Lit(c: char) | AnyChar | AnyRun

  type Pattern = seq<Token>

  /** Reads a pattern source: ".*" is a run of any characters, "." any one
      character, every other character stands for itself. */
  function Compile(source: string): Pattern
  {
    if |source| == 0 then []
    else if |source| >= 2 && source[0] == '.' && source[1] == '*' then [AnyRun] + Compile(source[2..])
    else if source[0] == '.' then [AnyChar] + Compile(source[1..])
    else [Lit(source[0])] + Compile(source[1..])
  }

  /** Full-string match of `p` against `s`. */
  predicate Matches(p: Pattern, s: string)
    decreases |p|, |s|
  {
    if |p| == 0 then |s| == 0
    else
      match p[0]
      case Lit(c) => |s| > 0 && s[0] == c && Matches(p[1..], s[1..])
      case AnyChar => |s| > 0 && Matches(p[1..], s[1..])
      case AnyRun => Matches(p[1..], s) || (|s| > 0 && Matches(p, s[1..]))
  }

  /** The pattern whose tokens are the characters of `w`, literally. */
  function Literal(w: string): Pattern
  {
    seq(|w|, i requires 0 <= i < |w| => Lit(w[i]))
  }

  /** Source text without '.' compiles to its characters taken literally,
      whatever follows it: "foo" is three literal tokens, and so is "a*b". */
  lemma {:induction false} CompileLiteral(w: string, rest: string)
    requires forall i :: 0 <= i < |w| ==> w[i] != '.'
    ensures Compile(w + rest) == Literal(w) + Compile(rest)
  {
    if |w| > 0 {
      assert (w + rest)[0] == w[0];
      assert (w + rest)[1..] == w[1..] + rest;
      CompileLiteral(w[1..], rest);
      assert Literal(w) == [Lit(w[0])] + Literal(w[1..]);
    } else {
      assert w + rest == rest;
    }
  }

  /** `w` occurs in `s` starting at index `i`. */
  predicate OccursAt(s: string, w: string, i: int)
  {
    0 <= i <= |s| - |w| && s[i..i + |w|] == w
  }

  /** `w` occurs somewhere in `s`. */
  predicate Contains(s: string, w: string)
  {
    exists i | 0 <= i <= |s| - |w| :: OccursAt(s, w, i)
  }

  /** ".*" matches every string. */
  lemma {:induction false} AnyRunMatchesAll(s: string)
    ensures Matches([AnyRun], s)
    decreases |s|
  {
    assert [AnyRun][1..] == [];
    if |s| > 0 {
      AnyRunMatchesAll(s[1..]);
    }
  }

  /** A literal prefix matches exactly the strings that start with it and
      whose rest matches the remaining pattern. */
  lemma {:induction false} LiteralPrefix(w: string, q: Pattern, s: string)
    ensures Matches(Literal(w) + q, s) <==> |w| <= |s| && s[..|w|] == w && Matches(q, s[|w|..])
    decreases |w|
  {
    var p := Literal(w) + q;
    if |w| > 0 {
      assert p[0] == Lit(w[0]);
      assert p[1..] == Literal(w[1..]) + q;
      if |s| > 0 {
        LiteralPrefix(w[1..], q, s[1..]);
        if |w| <= |s| {
          assert s[1..][|w| - 1..] == s[|w|..];
        }
        if |w| <= |s| && s[..|w|] == w {
          assert s[1..][..|w| - 1] == w[1..];
        }
        if |w| - 1 <= |s| - 1 && s[1..][..|w| - 1] == w[1..] && s[0] == w[0] {
          assert s[..|w|] == [s[0]] + s[1..][..|w| - 1];
        }
      }
    } else {
      assert p == q;
      assert s[..0] == w;
    }
  }

  /** A leading ".*" matches exactly when the rest of the pattern matches
      some suffix of the string. */
  lemma {:induction false} AnyRunPrefix(q: Pattern, s: string)
    ensures Matches([AnyRun] + q, s) <==> exists i :: 0 <= i <= |s| && Matches(q, s[i..])
    decreases |s|
  {
    var p := [AnyRun] + q;
    assert p[0] == AnyRun && p[1..] == q;
    assert s[0..] == s;
    if |s| > 0 {
      AnyRunPrefix(q, s[1..]);
      if exists i :: 0 <= i <= |s| && Matches(q, s[i..]) {
        var i :| 0 <= i <= |s| && Matches(q, s[i..]);
        if i > 0 {
          assert s[1..][i - 1..] == s[i..];
        }
      }
      if exists i :: 0 <= i <= |s| - 1 && Matches(q, s[1..][i..]) {
        var i :| 0 <= i <= |s| - 1 && Matches(q, s[1..][i..]);
        assert s[1..][i..] == s[i + 1..];
      }
    }
  }

  /** ".*w.*" matches exactly the strings that contain `w`. */
  lemma SurroundedLiteral(w: string, s: string)
    ensures Matches([AnyRun] + Literal(w) + [AnyRun], s) <==> Contains(s, w)
  {
    var tail := Literal(w) + [AnyRun];
    assert [AnyRun] + Literal(w) + [AnyRun] == [AnyRun] + tail;
    AnyRunPrefix(tail, s);
    if Contains(s, w) {
      var i :| 0 <= i <= |s| - |w| && OccursAt(s, w, i);
      LiteralPrefix(w, [AnyRun], s[i..]);
      AnyRunMatchesAll(s[i..][|w|..]);
      assert s[i..][..|w|] == s[i..i + |w|];
    }
    if exists i :: 0 <= i <= |s| && Matches(tail, s[i..]) {
      var i :| 0 <= i <= |s| && Matches(tail, s[i..]);
      LiteralPrefix(w, [AnyRun], s[i..]);
      assert s[i..][..|w|] == s[i..i + |w|];
      assert OccursAt(s, w, i);
    }
  }
}
