/**
 * The pieces of Ruby's String semantics the plugin leans on, stated once:
 * `split` (which drops trailing empty fields), literal `gsub` (including the
 * empty pattern), line anchors, `rstrip`, `Integer#to_s` and `String#to_i`,
 * and the order `select` keeps.
 */
module RubyText {

  // ---------------------------------------------------------------------------
  // Prefixes, suffixes, occurrences
  // ---------------------------------------------------------------------------

  predicate StartsWith(s: string, p: string) { p <= s }

  predicate EndsWith(s: string, p: string) { |p| <= |s| && s[|s| - |p|..] == p }

  /** `p` occurs in `s` starting at index `i`. */
  predicate OccursAt(s: string, p: string, i: int) {
    0 <= i && i + |p| <= |s| && s[i..i + |p|] == p
  }

  /** Ruby's `String#include?`. */
  predicate Contains(s: string, p: string) {
    exists i | 0 <= i <= |s| :: OccursAt(s, p, i)
  }

  // ---------------------------------------------------------------------------
  // Splitting and joining
  // ---------------------------------------------------------------------------

  /** Every field between separators, empty ones included: the reversible split. */
  function SplitAll(s: string, sep: char): (r: seq<string>)
    ensures |r| >= 1
    decreases |s|
  {
    if s == [] then [""]
    else
      var rest := SplitAll(s[1..], sep);
      if s[0] == sep then [""] + rest
      else [[s[0]] + rest[0]] + rest[1..]
  }

  /** Ruby's `Array#join(sep)`. */
  function Join(parts: seq<string>, sep: string): string
    decreases |parts|
  {
    if |parts| == 0 then ""
    else if |parts| == 1 then parts[0]
    else parts[0] + sep + Join(parts[1..], sep)
  }

  /** Removes the empty fields at the end, as Ruby's `split` does without a limit. */
  function DropTrailingEmpty(parts: seq<string>): (r: seq<string>)
    ensures |r| <= |parts| && r == parts[..|r|]
    ensures |r| == 0 || r[|r| - 1] != ""
    ensures forall i | |r| <= i < |parts| :: parts[i] == ""
    decreases |parts|
  {
    if |parts| == 0 then []
    else if parts[|parts| - 1] == "" then DropTrailingEmpty(parts[..|parts| - 1])
    else parts
  }

  /** Ruby's `String#split(sep)` (and `split(/ /)`) for a one-character separator. */
  function Split(s: string, sep: char): seq<string> {
    DropTrailingEmpty(SplitAll(s, sep))
  }

  /** The lines between the `\n` characters, the units Ruby's `^` and `$` anchor to. */
  function Lines(s: string): seq<string> { SplitAll(s, '\n') }

  function Unlines(ls: seq<string>): string { Join(ls, "\n") }

  /** Removes trailing occurrences of `c`. */
  function TrimTrailing(s: string, c: char): (r: string)
    decreases |s|
  {
    if |s| > 0 && s[|s| - 1] == c then TrimTrailing(s[..|s| - 1], c) else s
  }

  lemma {:induction false} SplitAllFields(s: string, sep: char)
    ensures forall i | 0 <= i < |SplitAll(s, sep)| :: sep !in SplitAll(s, sep)[i]
    decreases |s|
  {
    if s != [] {
      SplitAllFields(s[1..], sep);
    }
  }

  /** Splitting then joining with the same separator gives the text back. */
  lemma {:induction false} JoinSplitAll(s: string, sep: char)
    ensures Join(SplitAll(s, sep), [sep]) == s
    decreases |s|
  {
    if s != [] {
      var rest := SplitAll(s[1..], sep);
      JoinSplitAll(s[1..], sep);
      if s[0] == sep {
        assert SplitAll(s, sep) == [""] + rest;
        assert ([""] + rest)[1..] == rest;
      } else {
        var r := [[s[0]] + rest[0]] + rest[1..];
        assert SplitAll(s, sep) == r;
        if |rest| == 1 {
          assert Join(r, [sep]) == [s[0]] + rest[0];
        } else {
          assert r[1..] == rest[1..];
          assert Join(r, [sep]) == [s[0]] + rest[0] + [sep] + Join(rest[1..], [sep]);
        }
      }
    }
  }

  /** A prefix free of the separator merges into the first field. */
  lemma {:induction false} SplitAllPrefix(a: string, t: string, sep: char)
    requires sep !in a
    ensures SplitAll(a + t, sep) == [a + SplitAll(t, sep)[0]] + SplitAll(t, sep)[1..]
    decreases |a|
  {
    var T := SplitAll(t, sep);
    if a == [] {
      assert a + t == t;
      assert a + T[0] == T[0];
      assert T == [T[0]] + T[1..];
    } else {
      assert (a + t)[1..] == a[1..] + t;
      SplitAllPrefix(a[1..], t, sep);
      var rest := SplitAll(a[1..] + t, sep);
      assert rest == [a[1..] + T[0]] + T[1..];
      assert rest[0] == a[1..] + T[0];
      assert rest[1..] == T[1..];
      assert (a + t)[0] == a[0] && a[0] != sep;
      assert SplitAll(a + t, sep) == [[a[0]] + rest[0]] + rest[1..];
      assert [a[0]] + (a[1..] + T[0]) == a + T[0];
    }
  }

  /** A field followed by the separator is split off whole. */
  lemma {:induction false} SplitAllField(a: string, t: string, sep: char)
    requires sep !in a
    ensures SplitAll(a + [sep] + t, sep) == [a] + SplitAll(t, sep)
  {
    SplitAllPrefix(a, [sep] + t, sep);
    assert a + [sep] + t == a + ([sep] + t);
    var u := [sep] + t;
    assert u[1..] == t && u[0] == sep && u != [];
    var rest := SplitAll(t, sep);
    assert SplitAll(u, sep) == [""] + rest;
    assert ([""] + rest)[1..] == rest;
    assert ([""] + rest)[0] == "";
    assert a + "" == a;
  }

  /** A text ending in the separator splits into at least two fields, the last one empty. */
  lemma {:induction false} SplitAllTrailingSep(s: string, sep: char)
    ensures |SplitAll(s + [sep], sep)| >= 2
    ensures SplitAll(s + [sep], sep)[|SplitAll(s + [sep], sep)| - 1] == ""
    decreases |s|
  {
    var t := s + [sep];
    if s == [] {
      assert t[1..] == [];
      assert SplitAll(t, sep) == [""] + [""];
    } else {
      assert t[1..] == s[1..] + [sep] && t[0] == s[0];
      SplitAllTrailingSep(s[1..], sep);
    }
  }

  /** Joining fields free of the separator and splitting again gives the fields back. */
  lemma {:induction false} SplitAllJoin(parts: seq<string>, sep: char)
    requires |parts| >= 1
    requires forall i | 0 <= i < |parts| :: sep !in parts[i]
    ensures SplitAll(Join(parts, [sep]), sep) == parts
    decreases |parts|
  {
    if |parts| == 1 {
      SplitAllPrefix(parts[0], "", sep);
      assert parts[0] + "" == parts[0];
    } else {
      SplitAllJoin(parts[1..], sep);
      SplitAllField(parts[0], Join(parts[1..], [sep]), sep);
      assert parts == [parts[0]] + parts[1..];
    }
  }

  lemma {:induction false} JoinSnoc(parts: seq<string>, x: string, sep: string)
    requires |parts| >= 1
    ensures Join(parts + [x], sep) == Join(parts, sep) + sep + x
    decreases |parts|
  {
    if |parts| == 1 {
      assert parts + [x] == [parts[0], x];
    } else {
      assert (parts + [x])[1..] == parts[1..] + [x];
      JoinSnoc(parts[1..], x, sep);
    }
  }

  /** A join ends with its last part. */
  lemma JoinEndsWithLast(parts: seq<string>, sep: string)
    requires |parts| >= 1
    ensures EndsWith(Join(parts, sep), parts[|parts| - 1])
  {
    var n := |parts|;
    if n > 1 {
      assert parts == parts[..n - 1] + [parts[n - 1]];
      JoinSnoc(parts[..n - 1], parts[n - 1], sep);
    }
  }

  /** Dropping empty trailing fields before joining trims the trailing separators. */
  lemma {:induction false} JoinDropTrailingEmpty(parts: seq<string>, c: char)
    requires |parts| >= 1
    requires forall i | 0 <= i < |parts| :: c !in parts[i]
    ensures Join(DropTrailingEmpty(parts), [c]) == TrimTrailing(Join(parts, [c]), c)
    decreases |parts|
  {
    var n := |parts|;
    if parts[n - 1] != "" {
      var j := Join(parts, [c]);
      if n == 1 {
        assert j == parts[0];
      } else {
        assert parts == parts[..n - 1] + [parts[n - 1]];
        JoinSnoc(parts[..n - 1], parts[n - 1], [c]);
      }
      assert j[|j| - 1] == parts[n - 1][|parts[n - 1]| - 1];
      assert j[|j| - 1] in parts[n - 1];
    } else if n == 1 {
      assert DropTrailingEmpty(parts) == DropTrailingEmpty([]);
    } else {
      var init := parts[..n - 1];
      assert parts == init + [""];
      JoinSnoc(init, "", [c]);
      var j := Join(init, [c]) + [c] + "";
      assert Join(parts, [c]) == j;
      assert j[..|j| - 1] == Join(init, [c]);
      assert forall i | 0 <= i < |init| :: c !in init[i] by {
        forall i | 0 <= i < |init| ensures c !in init[i] { assert init[i] == parts[i]; }
      }
      JoinDropTrailingEmpty(init, c);
    }
  }

  /** Ruby's `split(sep)` followed by `join(sep)` loses exactly the trailing separators. */
  lemma JoinSplit(s: string, c: char)
    ensures Join(Split(s, c), [c]) == TrimTrailing(s, c)
  {
    SplitAllFields(s, c);
    JoinDropTrailingEmpty(SplitAll(s, c), c);
    JoinSplitAll(s, c);
  }

  // ---------------------------------------------------------------------------
  // Literal gsub
  // ---------------------------------------------------------------------------

  /** `rep` before, between and after every character: Ruby's `gsub("", rep)`. */
  function Interleave(s: string, rep: string): string
    decreases |s|
  {
    if s == [] then rep else rep + [s[0]] + Interleave(s[1..], rep)
  }

  /**
   * Ruby's `s.gsub(pat, rep)` with a String pattern: non-overlapping occurrences,
   * found left to right, replaced literally.
   */
  function ReplaceAll(s: string, pat: string, rep: string): string
    decreases |s|
  {
    if pat == [] then Interleave(s, rep)
    else if s == [] then []
    else if pat <= s then rep + ReplaceAll(s[|pat|..], pat, rep)
    else [s[0]] + ReplaceAll(s[1..], pat, rep)
  }

  /** Every `c` in `s` replaced by `rep`, character by character. */
  function ReplaceChar(s: string, c: char, rep: string): string
    decreases |s|
  {
    if s == [] then [] else (if s[0] == c then rep else [s[0]]) + ReplaceChar(s[1..], c, rep)
  }

  /** With a one-character pattern, gsub is a character-by-character substitution. */
  lemma {:induction false} ReplaceAllChar(s: string, c: char, rep: string)
    ensures ReplaceAll(s, [c], rep) == ReplaceChar(s, c, rep)
    decreases |s|
  {
    if s != [] {
      ReplaceAllChar(s[1..], c, rep);
      assert [c] <= s <==> s[0] == c;
    }
  }

  lemma {:induction false} ReplaceCharAppend(a: string, b: string, c: char, rep: string)
    ensures ReplaceChar(a + b, c, rep) == ReplaceChar(a, c, rep) + ReplaceChar(b, c, rep)
    decreases |a|
  {
    if a == [] {
      assert a + b == b;
    } else {
      assert (a + b)[1..] == a[1..] + b;
      assert (a + b)[0] == a[0];
      ReplaceCharAppend(a[1..], b, c, rep);
    }
  }

  /** A character absent from the replacement is absent from the result when it was replaced or absent before. */
  lemma {:induction false} ReplaceCharAbsent(s: string, c: char, rep: string, d: char)
    requires d !in rep
    requires d == c || d !in s
    ensures d !in ReplaceChar(s, c, rep)
    decreases |s|
  {
    if s != [] {
      ReplaceCharAbsent(s[1..], c, rep, d);
    }
  }

  lemma {:induction false} ReplaceCharKeeps(s: string, c: char, rep: string)
    requires c !in s
    ensures ReplaceChar(s, c, rep) == s
    decreases |s|
  {
    if s != [] {
      ReplaceCharKeeps(s[1..], c, rep);
    }
  }

  /** Replacing every newline is joining the lines with the replacement. */
  lemma {:induction false} ReplaceNewlines(s: string, rep: string)
    ensures ReplaceChar(s, '\n', rep) == Join(Lines(s), rep)
    decreases |s|
  {
    if s != [] {
      ReplaceNewlines(s[1..], rep);
      var rest := Lines(s[1..]);
      if s[0] == '\n' {
        assert Lines(s) == [""] + rest;
        assert ([""] + rest)[1..] == rest;
        assert Join([""] + rest, rep) == "" + rep + Join(rest, rep);
        assert ReplaceChar(s, '\n', rep) == rep + ReplaceChar(s[1..], '\n', rep);
      } else {
        var ls := [[s[0]] + rest[0]] + rest[1..];
        assert Lines(s) == ls;
        assert ReplaceChar(s, '\n', rep) == [s[0]] + ReplaceChar(s[1..], '\n', rep);
        if |rest| == 1 {
          assert Join(ls, rep) == [s[0]] + rest[0];
        } else {
          assert ls[1..] == rest[1..];
          assert Join(ls, rep) == [s[0]] + rest[0] + rep + Join(rest[1..], rep);
        }
      }
    }
  }

  lemma OccursShift(s: string, p: string, i: int)
    requires s != [] && 0 <= i
    ensures OccursAt(s[1..], p, i) <==> OccursAt(s, p, i + 1)
  {
    if i + |p| <= |s[1..]| {
      assert s[1..][i..i + |p|] == s[i + 1..i + 1 + |p|];
    }
  }

  /** Each line with `pre` before it and `post` after it. */
  function Wrapped(ls: seq<string>, pre: string, post: string): (r: seq<string>)
    ensures |r| == |ls|
    ensures forall i | 0 <= i < |ls| :: r[i] == pre + ls[i] + post
    decreases |ls|
  {
    if ls == [] then [] else [pre + ls[0] + post] + Wrapped(ls[1..], pre, post)
  }

  /**
   * Joining with `post + "\n" + pre` and wrapping the whole is putting `pre` and
   * `post` around every line.
   */
  lemma {:induction false} JoinWrapped(ls: seq<string>, pre: string, post: string)
    requires |ls| >= 1
    ensures pre + Join(ls, post + "\n" + pre) + post == Join(Wrapped(ls, pre, post), "\n")
    decreases |ls|
  {
    if |ls| > 1 {
      var sep := post + "\n" + pre;
      JoinWrapped(ls[1..], pre, post);
      var w := Wrapped(ls, pre, post);
      assert w[1..] == Wrapped(ls[1..], pre, post);
      calc {
        pre + Join(ls, sep) + post;
        pre + (ls[0] + sep + Join(ls[1..], sep)) + post;
        (pre + ls[0] + post) + "\n" + (pre + Join(ls[1..], sep) + post);
        Join(w, "\n");
      }
    }
  }

  /** A replaced newline is a line break with `pre` and `post` around every line. */
  lemma ReplaceNewlinesWrapped(v: string, pre: string, post: string)
    ensures pre + ReplaceAll(v, "\n", post + "\n" + pre) + post == Join(Wrapped(Lines(v), pre, post), "\n")
  {
    ReplaceAllChar(v, '\n', post + "\n" + pre);
    ReplaceNewlines(v, post + "\n" + pre);
    JoinWrapped(Lines(v), pre, post);
  }

  /** The same character substitution applied to every string of a list. */
  function ReplaceCharEach(ts: seq<string>, c: char, rep: string): (r: seq<string>)
    ensures |r| == |ts|
    ensures forall i | 0 <= i < |ts| :: r[i] == ReplaceChar(ts[i], c, rep)
    decreases |ts|
  {
    if ts == [] then [] else [ReplaceChar(ts[0], c, rep)] + ReplaceCharEach(ts[1..], c, rep)
  }

  lemma {:induction false} ReplaceCharEmpty(s: string, c: char, rep: string)
    requires rep != []
    ensures ReplaceChar(s, c, rep) == [] <==> s == []
  {
  }

  /** Substituting a character other than the separator commutes with splitting all fields. */
  lemma {:induction false} SplitAllReplaceChar(s: string, c: char, rep: string, sep: char)
    requires c != sep && sep !in rep
    ensures SplitAll(ReplaceChar(s, c, rep), sep) == ReplaceCharEach(SplitAll(s, sep), c, rep)
    decreases |s|
  {
    if s != [] {
      SplitAllReplaceChar(s[1..], c, rep, sep);
      var x := ReplaceChar(s[1..], c, rep);
      var R := SplitAll(s[1..], sep);
      var T := SplitAll(x, sep);
      assert T == ReplaceCharEach(R, c, rep);
      var f := if s[0] == c then rep else [s[0]];
      assert ReplaceChar(s, c, rep) == f + x;
      if s[0] == sep {
        assert f == [sep];
        var u := [sep] + x;
        assert u[0] == sep && u[1..] == x;
        assert SplitAll(u, sep) == [""] + T;
        assert SplitAll(s, sep) == [""] + R;
        assert ReplaceCharEach([""] + R, c, rep) == [""] + T;
      } else {
        assert sep !in f;
        SplitAllPrefix(f, x, sep);
        assert SplitAll(s, sep) == [[s[0]] + R[0]] + R[1..];
        assert [s[0]] + R[0] == [s[0]] + R[0];
        assert ([s[0]] + R[0])[0] == s[0] && ([s[0]] + R[0])[1..] == R[0];
        assert ReplaceChar([s[0]] + R[0], c, rep) == f + ReplaceChar(R[0], c, rep);
        var lhs := [f + T[0]] + T[1..];
        var rhs := ReplaceCharEach([[s[0]] + R[0]] + R[1..], c, rep);
        assert |lhs| == |rhs|;
        forall i | 0 <= i < |lhs| ensures lhs[i] == rhs[i] {
          if i > 0 {
            assert lhs[i] == T[i];
          }
        }
      }
    }
  }

  /** Ruby's split commutes with a character substitution that leaves the separator alone. */
  lemma {:induction false} SplitReplaceChar(s: string, c: char, rep: string, sep: char)
    requires c != sep && sep !in rep && rep != []
    ensures Split(ReplaceChar(s, c, rep), sep) == ReplaceCharEach(Split(s, sep), c, rep)
  {
    SplitAllReplaceChar(s, c, rep, sep);
    DropTrailingEmptyEach(SplitAll(s, sep), c, rep);
  }

  lemma {:induction false} DropTrailingEmptyEach(ps: seq<string>, c: char, rep: string)
    requires rep != []
    ensures DropTrailingEmpty(ReplaceCharEach(ps, c, rep)) == ReplaceCharEach(DropTrailingEmpty(ps), c, rep)
    decreases |ps|
  {
    var n := |ps|;
    if n > 0 {
      var e := ReplaceCharEach(ps, c, rep);
      ReplaceCharEmpty(ps[n - 1], c, rep);
      assert e[..n - 1] == ReplaceCharEach(ps[..n - 1], c, rep);
      if ps[n - 1] == "" {
        DropTrailingEmptyEach(ps[..n - 1], c, rep);
      }
    }
  }

  /** With no occurrence of a non-empty pattern, gsub changes nothing. */
  lemma {:induction false} ReplaceAllAbsent(s: string, pat: string, rep: string)
    requires pat != []
    requires !Contains(s, pat)
    ensures ReplaceAll(s, pat, rep) == s
    decreases |s|
  {
    if s != [] {
      assert !(pat <= s) by { assert !OccursAt(s, pat, 0); }
      assert !Contains(s[1..], pat) by {
        forall i | 0 <= i <= |s[1..]| ensures !OccursAt(s[1..], pat, i) {
          assert !OccursAt(s, pat, i + 1);
          OccursShift(s, pat, i);
        }
      }
      ReplaceAllAbsent(s[1..], pat, rep);
    }
  }

  /**
   * When the only occurrence of `pat` in `x + pat` that starts inside `x` is none,
   * gsub replaces exactly that final occurrence.
   */
  lemma {:induction false} ReplaceAllFinal(x: string, pat: string, rep: string)
    requires pat != []
    requires forall i | 0 <= i < |x| :: !OccursAt(x + pat, pat, i)
    ensures ReplaceAll(x + pat, pat, rep) == x + rep
    decreases |x|
  {
    if x == [] {
      assert [] + pat == pat;
      assert pat[|pat|..] == [];
    } else {
      var s := x + pat;
      assert !(pat <= s) by { assert !OccursAt(s, pat, 0); }
      assert s[1..] == x[1..] + pat;
      forall i | 0 <= i < |x[1..]| ensures !OccursAt(x[1..] + pat, pat, i) {
        assert !OccursAt(s, pat, i + 1);
        OccursShift(s, pat, i);
      }
      ReplaceAllFinal(x[1..], pat, rep);
      assert ReplaceAll(s, pat, rep) == [s[0]] + ReplaceAll(s[1..], pat, rep);
      assert [x[0]] + (x[1..] + rep) == x + rep;
    }
  }

  // ---------------------------------------------------------------------------
  // Whitespace and rstrip
  // ---------------------------------------------------------------------------

  /** The characters of the regular-expression class `\s`. */
  predicate IsSpace(c: char) {
    c == ' ' || c == '\t' || c == '\n' || c == '\U{B}' || c == '\U{C}' || c == '\r'
  }

  /** The characters `String#rstrip` removes: `\s` and NUL. */
  predicate IsStripSpace(c: char) { IsSpace(c) || c == '\0' }

  /**
   * Ruby's `String#rstrip`: the longest prefix that does not end in whitespace;
   * only whitespace follows it.
   */
  function Rstrip(s: string): (r: string)
    ensures r <= s
    ensures forall i | |r| <= i < |s| :: IsStripSpace(s[i])
    ensures |r| == 0 || !IsStripSpace(r[|r| - 1])
    decreases |s|
  {
    if |s| > 0 && IsStripSpace(s[|s| - 1]) then Rstrip(s[..|s| - 1]) else s
  }

  /** Stripping twice strips nothing more. */
  lemma RstripIdempotent(s: string)
    ensures Rstrip(Rstrip(s)) == Rstrip(s)
  {
  }

  // ---------------------------------------------------------------------------
  // Case
  // ---------------------------------------------------------------------------

  function AsciiLower(c: char): (d: char)
    ensures 'A' <= c <= 'Z' ==> d as int == c as int + 32
    ensures !('A' <= c <= 'Z') ==> d == c
  {
    if 'A' <= c <= 'Z' then (c as int + 32) as char else c
  }

  /** `String#downcase` on the letters A to Z; every other character is kept. */
  function Downcase(s: string): (r: string)
    ensures |r| == |s|
    ensures forall i | 0 <= i < |s| :: r[i] == AsciiLower(s[i])
    decreases |s|
  {
    if s == [] then [] else [AsciiLower(s[0])] + Downcase(s[1..])
  }

  /** Downcasing twice is downcasing once. */
  lemma DowncaseIdempotent(s: string)
    ensures Downcase(Downcase(s)) == Downcase(s)
  {
    var d := Downcase(s);
    forall i | 0 <= i < |s| ensures Downcase(d)[i] == d[i] {
      assert !('A' <= d[i] <= 'Z');
    }
  }

  // ---------------------------------------------------------------------------
  // Order kept by `select` and `filter`
  // ---------------------------------------------------------------------------

  /** `a` is `b` with some elements left out, the rest in the same order. */
  predicate Subsequence<T(==)>(a: seq<T>, b: seq<T>)
    decreases |b|
  {
    if a == [] then true
    else if b == [] then false
    else (a[0] == b[0] && Subsequence(a[1..], b[1..])) || Subsequence(a, b[1..])
  }

  /** Appending the same element to both sides, or only to the longer one, keeps a subsequence. */
  lemma {:induction false} SubsequenceAppend<T>(a: seq<T>, b: seq<T>, x: T)
    requires Subsequence(a, b)
    ensures Subsequence(a, b + [x]) && Subsequence(a + [x], b + [x])
    decreases |b|
  {
    var bx := b + [x];
    var ax := a + [x];
    assert bx[0] == (if b == [] then x else b[0]);
    if b == [] {
      assert a == [] && ax == [x] && ax[1..] == [];
    } else {
      assert bx[1..] == b[1..] + [x];
      assert ax[0] == (if a == [] then x else a[0]);
      if a == [] {
        SubsequenceAppend(a, b[1..], x);
        assert ax == [x];
      } else {
        assert ax[1..] == a[1..] + [x];
        if a[0] == b[0] && Subsequence(a[1..], b[1..]) {
          SubsequenceAppend(a[1..], b[1..], x);
        } else {
          SubsequenceAppend(a, b[1..], x);
        }
      }
    }
  }

  // ---------------------------------------------------------------------------
  // Numbers
  // ---------------------------------------------------------------------------

  predicate IsDigit(c: char) { '0' <= c <= '9' }

  predicate AllDigits(s: string) { forall i | 0 <= i < |s| :: IsDigit(s[i]) }

  function DigitChar(d: nat): (c: char)
    requires d < 10
    ensures IsDigit(c) && c as int - '0' as int == d
  {
    ['0', '1', '2', '3', '4', '5', '6', '7', '8', '9'][d]
  }

  /** `Integer#to_s` on a non-negative integer: decimal digits, no padding. */
  function Decimal(n: nat): (r: string)
    ensures |r| >= 1 && AllDigits(r)
    ensures r[0] == '0' ==> n == 0
    decreases n
  {
    if n < 10 then [DigitChar(n)] else Decimal(n / 10) + [DigitChar(n % 10)]
  }

  /** The value of a string of decimal digits. */
  function DigitsValue(s: string): nat
    requires AllDigits(s)
    decreases |s|
  {
    if s == [] then 0 else DigitsValue(s[..|s| - 1]) * 10 + (s[|s| - 1] as int - '0' as int)
  }

  /** Reading back what `Decimal` wrote gives the number. */
  lemma {:induction false} DecimalRoundTrip(n: nat)
    ensures DigitsValue(Decimal(n)) == n
    decreases n
  {
    if n >= 10 {
      DecimalRoundTrip(n / 10);
      var d := Decimal(n);
      assert d[..|d| - 1] == Decimal(n / 10);
    }
  }

  /** The digits (underscores dropped) of the longest prefix shaped `d(_?d)*`. */
  function LeadingDigits(t: string): (r: string)
    ensures AllDigits(r)
    decreases |t|
  {
    if |t| > 0 && IsDigit(t[0]) then [t[0]] + MoreDigits(t[1..]) else ""
  }

  function MoreDigits(t: string): (r: string)
    ensures AllDigits(r)
    decreases |t|
  {
    if |t| > 0 && IsDigit(t[0]) then [t[0]] + MoreDigits(t[1..])
    else if |t| > 1 && t[0] == '_' && IsDigit(t[1]) then [t[1]] + MoreDigits(t[2..])
    else ""
  }

  function SkipSpace(s: string): string
    decreases |s|
  {
    if |s| > 0 && IsSpace(s[0]) then SkipSpace(s[1..]) else s
  }

  /**
   * Ruby's `String#to_i` in base 10: leading whitespace, an optional sign, then
   * the digits, single underscores allowed between them; anything else ends the
   * number, and no digits at all read as 0.
   */
  function ToI(s: string): int {
    var t := SkipSpace(s);
    if |t| > 0 && t[0] == '-' then 0 - DigitsValue(LeadingDigits(t[1..])) as int
    else if |t| > 0 && t[0] == '+' then DigitsValue(LeadingDigits(t[1..]))
    else DigitsValue(LeadingDigits(t))
  }
}
