/** Escaping of reference tokens (section 4 of RFC 6901), by in-place
    replacement of substrings. */
module Escaping {

  // ----- specification

  /** The leftmost non-overlapping rewriting of `f` into `t`. */
  function Rewrite(s: string, f: string, t: string): string
    requires f != ""
  {
    if s == "" then ""
    else if f <= s then t + Rewrite(s[|f|..], f, t)
    else [s[0]] + Rewrite(s[1..], f, t)
  }

  /** `f` occurs in `s` at position `i`. */
  predicate OccursAt(s: string, f: string, i: nat) { i <= |s| && f <= s[i..] }

  function EscapeChar(c: char): string {
    if c == '~' then "~0" else if c == '/' then "~1" else [c]
  }

  /** Each character escaped on its own. */
  function Escape(s: string): string {
    if s == "" then "" else EscapeChar(s[0]) + Escape(s[1..])
  }

  /** Every `~` starts `~0` or `~1`. */
  predicate WellEscaped(s: string) {
    forall i | 0 <= i < |s| && s[i] == '~' :: i + 1 < |s| && (s[i + 1] == '0' || s[i + 1] == '1')
  }

  /** Escape sequences read left to right, each once. */
  function Unescape(s: string): string {
    if s == "" then ""
    else if s[0] == '~' && |s| > 1 && s[1] == '0' then "~" + Unescape(s[2..])
    else if s[0] == '~' && |s| > 1 && s[1] == '1' then "/" + Unescape(s[2..])
    else [s[0]] + Unescape(s[1..])
  }

  // ----- replace_substring

  /** `std::string::find`: the first occurrence at or after `from`, if any. */
  method Find(s: string, f: string, from: nat) returns (found: bool, pos: nat)
    requires from <= |s|
    ensures found ==> from <= pos && OccursAt(s, f, pos)
    ensures found ==> forall i | from <= i < pos :: !OccursAt(s, f, i)
    ensures !found ==> forall i | from <= i <= |s| :: !OccursAt(s, f, i)
  {
    pos := from;
    while pos <= |s|
      invariant from <= pos <= |s| + 1
      invariant forall i | from <= i < pos :: !OccursAt(s, f, i)
    {
      if f <= s[pos..] { return true, pos; }
      pos := pos + 1;
    }
    found := false;
  }

  /** Text before the first occurrence is copied. */
  lemma {:induction false} RewriteSkips(s: string, f: string, t: string, n: nat)
    requires f != "" && n <= |s|
    requires forall i | 0 <= i < n :: !OccursAt(s, f, i)
    ensures Rewrite(s, f, t) == s[..n] + Rewrite(s[n..], f, t)
  {
    if n == 0 {
      assert s[..0] == "" && s[0..] == s;
    } else {
      assert s[0..] == s && !OccursAt(s, f, 0);
      forall i | 0 <= i < n - 1 ensures !OccursAt(s[1..], f, i) {
        assert s[1..][i..] == s[i + 1..] && !OccursAt(s, f, i + 1);
      }
      RewriteSkips(s[1..], f, t, n - 1);
      assert s[1..][n - 1..] == s[n..] && s[..n] == [s[0]] + s[1..][..n - 1];
    }
  }

  lemma RewriteMatch(rest: string, f: string, t: string)
    requires f != ""
    ensures Rewrite(f + rest, f, t) == t + Rewrite(rest, f, t)
  {
    assert (f + rest)[|f|..] == rest && f <= f + rest;
  }

  lemma RewriteMiss(c: char, rest: string, f: string, t: string)
    requires f != "" && (f[0] != c || (|f| > 1 && rest != "" && f[1] != rest[0]))
    ensures Rewrite([c] + rest, f, t) == [c] + Rewrite(rest, f, t)
  {
    var s := [c] + rest;
    assert s[0] == c && s[1..] == rest && (rest != "" ==> s[1] == rest[0]);
    assert !(f <= s);
  }

  /** What is left to rewrite at `done` is known up to the next occurrence. */
  lemma RewriteUpTo(s: string, f: string, t: string, done: nat, pos: nat)
    requires f != "" && done <= pos <= |s|
    requires forall i | done <= i < pos :: !OccursAt(s, f, i)
    ensures Rewrite(s[done..], f, t) == s[done..pos] + Rewrite(s[pos..], f, t)
  {
    var rest := s[done..];
    forall i | 0 <= i < pos - done ensures !OccursAt(rest, f, i) {
      assert rest[i..] == s[done + i..] && !OccursAt(s, f, done + i);
    }
    RewriteSkips(rest, f, t, pos - done);
    assert rest[pos - done..] == s[pos..] && rest[..pos - done] == s[done..pos];
  }

  lemma Regroup(a: string, b: string, c: string, d: string)
    ensures a + (b + (c + d)) == (a + b + c) + d
  {
  }

  /** One replacement at `pos` moves the rewritten part of `s` past it. */
  lemma ReplacementStep(s: string, f: string, t: string, done: nat, pos: nat, next: string)
    requires f != "" && done <= pos && OccursAt(s, f, pos)
    requires forall i | done <= i < pos :: !OccursAt(s, f, i)
    requires next == s[..pos] + t + s[pos + |f|..]
    ensures s[..done] + Rewrite(s[done..], f, t) == next[..pos + |t|] + Rewrite(next[pos + |t|..], f, t)
  {
    hide Rewrite;
    RewriteUpTo(s, f, t, done, pos);
    var rest := s[pos + |f|..];
    assert s[pos..] == f + rest;
    RewriteMatch(rest, f, t);
    assert next[pos + |t|..] == rest;
    assert next[..pos + |t|] == s[..done] + s[done..pos] + t;
    Regroup(s[..done], s[done..pos], t, Rewrite(rest, f, t));
  }

  /** The loop of `replace_substring`; it resumes behind each replacement, so it
      ends even when the replacement contains the search string. */
  method ReplaceSubstring(s0: string, f: string, t: string) returns (s: string)
    requires f != ""
    ensures s == Rewrite(s0, f, t)
  {
    s := s0;
    ghost var done := 0;
    var found, pos := Find(s, f, 0);
    assert s[..0] + Rewrite(s[0..], f, t) == Rewrite(s0, f, t) by { assert s[0..] == s0; }
    while found
      invariant 0 <= done <= |s|
      invariant Rewrite(s0, f, t) == s[..done] + Rewrite(s[done..], f, t)
      invariant found ==> done <= pos && OccursAt(s, f, pos)
      invariant found ==> forall i | done <= i < pos :: !OccursAt(s, f, i)
      invariant !found ==> forall i | done <= i <= |s| :: !OccursAt(s, f, i)
      decreases |s| - done, found
    {
      var next := s[..pos] + t + s[pos + |f|..];
      ReplacementStep(s, f, t, done, pos, next);
      assert |next| - (pos + |t|) < |s| - done;
      s, done := next, pos + |t|;
      found, pos := Find(s, f, pos + |t|);
    }
    RewriteUpTo(s, f, t, done, |s|);
    assert s[|s|..] == "" && s[..done] + s[done..|s|] == s;
  }

  // ----- escape and unescape

  lemma {:induction false} EscapeInTwoPasses(s: string)
    ensures Rewrite(Rewrite(s, "~", "~0"), "/", "~1") == Escape(s)
  {
    if s != "" {
      EscapeInTwoPasses(s[1..]);
      var r := Rewrite(s[1..], "~", "~0");
      assert s == [s[0]] + s[1..];
      if s[0] == '~' {
        RewriteMatch(s[1..], "~", "~0");
        assert "~0" + r == ['~'] + ("0" + r);
        RewriteMiss('~', "0" + r, "/", "~1");
        RewriteMiss('0', r, "/", "~1");
      } else {
        RewriteMiss(s[0], s[1..], "~", "~0");
        if s[0] == '/' { RewriteMatch(r, "/", "~1"); } else { RewriteMiss(s[0], r, "/", "~1"); }
      }
    }
  }

  /** The two replacements of `unescape`. */
  function UnescapePasses(s: string): string {
    Rewrite(Rewrite(s, "~1", "/"), "~0", "~")
  }

  lemma {:induction false} UnescapeInTwoPasses(s: string)
    requires WellEscaped(s)
    ensures UnescapePasses(s) == Unescape(s)
  {
    if s == "" {
    } else if s[0] == '~' {
      var tail := s[2..];
      assert WellEscaped(tail);
      UnescapeInTwoPasses(tail);
      var r := Rewrite(tail, "~1", "/");
      if s[1] == '1' {
        assert s == "~1" + tail;
        RewriteMatch(tail, "~1", "/");
        RewriteMiss('/', r, "~0", "~");
      } else {
        assert s == ['~'] + (['0'] + tail);
        RewriteMiss('~', ['0'] + tail, "~1", "/");
        RewriteMiss('0', tail, "~1", "/");
        assert ['~'] + (['0'] + r) == "~0" + r;
        RewriteMatch(r, "~0", "~");
      }
    } else {
      assert WellEscaped(s[1..]) && s == [s[0]] + s[1..];
      UnescapeInTwoPasses(s[1..]);
      RewriteMiss(s[0], s[1..], "~1", "/");
      RewriteMiss(s[0], Rewrite(s[1..], "~1", "/"), "~0", "~");
    }
  }

  /** `escape`. */
  method EscapeToken(token: string) returns (s: string)
    ensures s == Escape(token)
  {
    s := ReplaceSubstring(token, "~", "~0");
    s := ReplaceSubstring(s, "/", "~1");
    EscapeInTwoPasses(token);
  }

  /** `unescape`, on any string. */
  method UnescapeToken(token: string) returns (s: string)
    ensures s == UnescapePasses(token)
  {
    s := ReplaceSubstring(token, "~1", "/");
    s := ReplaceSubstring(s, "~0", "~");
  }

  // ----- the two are inverse

  lemma {:induction false} EscapeIsWellEscaped(s: string)
    ensures WellEscaped(Escape(s)) && '/' !in Escape(s)
  {
    if s != "" {
      EscapeIsWellEscaped(s[1..]);
      var e, r := EscapeChar(s[0]), Escape(s[1..]);
      forall i | 0 <= i < |e + r| && (e + r)[i] == '~'
        ensures i + 1 < |e + r| && ((e + r)[i + 1] == '0' || (e + r)[i + 1] == '1')
      {
        if i >= |e| { assert r[i - |e|] == '~'; }
      }
    }
  }

  lemma {:induction false} UnescapeEscape(s: string)
    ensures Unescape(Escape(s)) == s
  {
    if s != "" {
      UnescapeEscape(s[1..]);
      var e, r := EscapeChar(s[0]), Escape(s[1..]);
      assert (e + r)[|e|..] == r;
    }
  }

  lemma {:induction false} EscapeUnescape(t: string)
    requires WellEscaped(t) && '/' !in t
    ensures Escape(Unescape(t)) == t
  {
    if t == "" {
    } else if t[0] == '~' {
      assert WellEscaped(t[2..]);
      EscapeUnescape(t[2..]);
      var u := Unescape(t);
      assert u[1..] == Unescape(t[2..]) && t == t[..2] + t[2..];
    } else {
      assert WellEscaped(t[1..]);
      EscapeUnescape(t[1..]);
      var u := Unescape(t);
      assert u[1..] == Unescape(t[1..]) && t == [t[0]] + t[1..];
    }
  }

  lemma EscapeInjective(s: string, t: string)
    requires Escape(s) == Escape(t)
    ensures s == t
  {
    UnescapeEscape(s); UnescapeEscape(t);
  }

  /** `unescape` undoes `escape` on every string; `escape` undoes `unescape` on
      exactly the well-escaped strings without a slash. */
  lemma EscapingIsInvertible(s: string)
    ensures UnescapePasses(Escape(s)) == s
    ensures Escape(UnescapePasses(s)) == s <==> WellEscaped(s) && '/' !in s
  {
    EscapeIsWellEscaped(s);
    UnescapeInTwoPasses(Escape(s));
    UnescapeEscape(s);
    if WellEscaped(s) && '/' !in s {
      UnescapeInTwoPasses(s);
      EscapeUnescape(s);
    } else {
      EscapeIsWellEscaped(UnescapePasses(s));
    }
  }

  // ----- what is rewritten

  function Join(gaps: seq<string>, separator: string): string
    requires gaps != []
  {
    if |gaps| == 1 then gaps[0] else gaps[0] + separator + Join(gaps[1..], separator)
  }

  /** The search string occurs first behind the gap. */
  predicate FirstBehind(gap: string, f: string) { forall k | 0 <= k < |gap| :: !OccursAt(gap + f, f, k) }

  lemma PrefixMore(f: string, s: string, rest: string)
    ensures f <= s ==> f <= s + rest
  {
  }

  lemma FirstBehindMore(c: char, gap: string, f: string, rest: string)
    requires f != "" && FirstBehind(gap, f) && !(f <= [c] + gap + f + rest)
    ensures FirstBehind([c] + gap, f)
  {
    forall k | 0 <= k < |[c] + gap| ensures !OccursAt([c] + gap + f, f, k) {
      if k == 0 {
        assert ([c] + gap + f)[0..] == [c] + gap + f;
        PrefixMore(f, [c] + gap + f, rest);
      } else {
        assert ([c] + gap + f)[k..] == (gap + f)[k - 1..];
        assert !OccursAt(gap + f, f, k - 1);
      }
    }
  }

  predicate Absent(s: string, f: string) { forall k | 0 <= k <= |s| :: !OccursAt(s, f, k) }

  lemma AbsentMore(c: char, s: string, f: string)
    requires f != "" && Absent(s, f) && !(f <= [c] + s)
    ensures Absent([c] + s, f)
  {
    forall k | 0 <= k <= |[c] + s| ensures !OccursAt([c] + s, f, k) {
      if k == 0 {
        assert ([c] + s)[0..] == [c] + s;
      } else {
        assert ([c] + s)[k..] == s[k - 1..];
        assert !OccursAt(s, f, k - 1);
      }
    }
  }

  lemma JoinFirst(c: char, gaps: seq<string>, separator: string)
    requires |gaps| > 1
    ensures Join([[c] + gaps[0]] + gaps[1..], separator) == [c] + Join(gaps, separator)
    ensures [c] + Join(gaps, separator) == [c] + gaps[0] + separator + Join(gaps[1..], separator)
  {
    assert ([[c] + gaps[0]] + gaps[1..])[1..] == gaps[1..];
  }

  /** The gaps between the occurrences of `f`, found from left to right, none overlapping
      another, and what becomes of the text when exactly these are replaced. */
  predicate Pieces(gaps: seq<string>, s: string, f: string, t: string, r: string) {
    && gaps != [] && s == Join(gaps, f) && r == Join(gaps, t)
    && (forall i | 0 <= i < |gaps| - 1 :: FirstBehind(gaps[i], f))
    && Absent(gaps[|gaps| - 1], f)
  }

  lemma PiecesAfterMatch(more: seq<string>, rest: string, f: string, t: string, r: string)
    requires Pieces(more, rest, f, t, r)
    ensures Pieces([""] + more, f + rest, f, t, t + r)
  {
    var gaps := [""] + more;
    assert gaps[1..] == more;
    assert "" + f + Join(more, f) == f + rest && "" + t + Join(more, t) == t + r;
  }

  lemma PiecesAfterMiss(c: char, more: seq<string>, rest: string, f: string, t: string, r: string)
    requires f != "" && Pieces(more, rest, f, t, r) && !(f <= [c] + rest)
    ensures Pieces([[c] + more[0]] + more[1..], [c] + rest, f, t, [c] + r)
  {
    var gaps := [[c] + more[0]] + more[1..];
    if |more| == 1 {
      AbsentMore(c, more[0], f);
    } else {
      hide Join, FirstBehind, Absent;
      JoinFirst(c, more, f);
      JoinFirst(c, more, t);
      FirstBehindMore(c, more[0], f, Join(more[1..], f));
      assert gaps[|gaps| - 1] == more[|more| - 1];
    }
  }

  lemma {:induction false} RewriteReplacesAll(s: string, f: string, t: string) returns (gaps: seq<string>)
    requires f != ""
    ensures Pieces(gaps, s, f, t, Rewrite(s, f, t))
    decreases |s|
  {
    if s == "" {
      gaps := [""];
    } else {
      hide Pieces;
      if f <= s {
        var rest := s[|f|..];
        var more := RewriteReplacesAll(rest, f, t);
        gaps := [""] + more;
        assert s == f + rest;
        PiecesAfterMatch(more, rest, f, t, Rewrite(rest, f, t));
      } else {
        var c, rest := s[0], s[1..];
        assert s == [c] + rest;
        var more := RewriteReplacesAll(rest, f, t);
        PiecesNotEmpty(more, rest, f, t, Rewrite(rest, f, t));
        gaps := [[c] + more[0]] + more[1..];
        PiecesAfterMiss(c, more, rest, f, t, Rewrite(rest, f, t));
      }
    }
  }

  lemma PiecesNotEmpty(gaps: seq<string>, s: string, f: string, t: string, r: string)
    requires Pieces(gaps, s, f, t, r)
    ensures gaps != []
  {
  }

  /** The escape sequences of section 3 of RFC 6901. */
  lemma EscapeMeans(c: char, rest: string)
    ensures Escape("") == ""
    ensures Escape("~" + rest) == "~0" + Escape(rest) && Escape("/" + rest) == "~1" + Escape(rest)
    ensures c != '~' && c != '/' ==> Escape([c] + rest) == [c] + Escape(rest)
  {
    assert ("~" + rest)[1..] == rest && ("/" + rest)[1..] == rest && ([c] + rest)[1..] == rest;
  }

  lemma UnescapeMeans(c: char, rest: string)
    ensures Unescape("") == ""
    ensures Unescape("~0" + rest) == "~" + Unescape(rest) && Unescape("~1" + rest) == "/" + Unescape(rest)
    ensures c != '~' ==> Unescape([c] + rest) == [c] + Unescape(rest)
  {
    assert ("~0" + rest)[2..] == rest && ("~1" + rest)[2..] == rest && ([c] + rest)[1..] == rest;
  }
}
