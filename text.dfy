/**
 * The Python string operations the modelled code relies on, over `seq<char>`:
 * `str.strip`, `str.rstrip(c)`, `str.lower` (ASCII letters), `str.replace`,
 * `str.split(c)`, `str.startswith`, and the `os.path` functions `splitext`,
 * `basename`, `dirname` and `join`.
 */
module Text {

  /** Python's `str.isspace()` for one character. */
  predicate IsSpace(c: char) {
    || ('\t' <= c <= '\r')
    || ('\U{1c}' <= c <= '\U{1f}')
    || c == ' ' || c == '\U{85}' || c == '\U{a0}' || c == '\U{1680}'
    || ('\U{2000}' <= c <= '\U{200a}')
    || c == '\U{2028}' || c == '\U{2029}' || c == '\U{202f}' || c == '\U{205f}' || c == '\U{3000}'
  }

  /** Neither end of `s` is whitespace: what `str.strip()` leaves behind. */
  predicate Stripped(s: string) {
    s == [] || (!IsSpace(s[0]) && !IsSpace(s[|s| - 1]))
  }

  /** `s.lstrip()`: the longest suffix of `s` that does not start with whitespace. */
  function LStrip(s: string): (r: string)
    ensures |r| <= |s| && r == s[|s| - |r|..]
    ensures r == [] || !IsSpace(r[0])
  {
    if |s| > 0 && IsSpace(s[0]) then LStrip(s[1..]) else s
  }

  /** `s.rstrip()`: the longest prefix of `s` that does not end with whitespace. */
  function RStrip(s: string): (r: string)
    ensures |r| <= |s| && r == s[..|r|]
    ensures forall i :: |r| <= i < |s| ==> IsSpace(s[i])
    ensures r == [] || !IsSpace(r[|r| - 1])
  {
    if |s| > 0 && IsSpace(s[|s| - 1]) then RStrip(s[..|s| - 1]) else s
  }

  /** `s.strip()`. */
  function Strip(s: string): (r: string)
    ensures Stripped(r)
    ensures |r| <= |s|
  {
    var l := LStrip(s);
    var r := RStrip(l);
    assert r != [] ==> r[0] == l[0];
    r
  }

  /** Stripping a string whose ends are not whitespace changes nothing. */
  lemma StripStripped(s: string)
    requires Stripped(s)
    ensures Strip(s) == s
  {
    assert LStrip(s) == s;
  }

  /** `s.strip()` is a slice of `s`, starting at index `i`. */
  lemma StripIsSlice(s: string) returns (i: nat)
    ensures i + |Strip(s)| <= |s| && Strip(s) == s[i..i + |Strip(s)|]
  {
    var l := LStrip(s);
    i := |s| - |l|;
    assert Strip(s) == l[..|Strip(s)|];
  }

  /** Leading whitespace is stripped across a concatenation. */
  lemma {:induction false} LStripAppend(a: string, b: string)
    ensures LStrip(a + b) == if LStrip(a) == [] then LStrip(b) else LStrip(a) + b
    decreases |a|
  {
    if |a| == 0 {
      assert a + b == b;
    } else if IsSpace(a[0]) {
      assert (a + b)[1..] == a[1..] + b;
      LStripAppend(a[1..], b);
    }
  }

  /** A whitespace character at the end is stripped. */
  lemma RStripSpace(a: string, c: char)
    requires IsSpace(c)
    ensures RStrip(a + [c]) == RStrip(a)
  {
    assert (a + [c])[..|a|] == a;
  }

  /** Whitespace around a text does not change what `strip()` leaves. */
  lemma StripSurrounded(q: string, a: char, b: char)
    requires IsSpace(a) && IsSpace(b)
    ensures Strip([a] + q + [b]) == Strip(q)
  {
    var s := [a] + q + [b];
    assert LStrip(s) == LStrip(q + [b]) by {
      assert s[1..] == q + [b];
    }
    LStripAppend(q, [b]);
    if LStrip(q) == [] {
      assert LStrip([b]) == LStrip([b][1..]);
    } else {
      RStripSpace(LStrip(q), b);
    }
  }

  /** A text that holds no `sub` has none in any slice of it. */
  lemma NotContainsSlice(s: string, sub: string, i: nat, j: nat)
    requires i <= j <= |s| && !Contains(s, sub)
    ensures !Contains(s[i..j], sub)
  {
    if Contains(s[i..j], sub) {
      var k :| 0 <= k <= |s[i..j]| - |sub| && OccursAt(s[i..j], sub, k);
      forall t | 0 <= t < |sub| ensures s[i + k + t] == sub[t] {
        assert s[i..j][k..k + |sub|][t] == sub[t];
      }
      assert s[i + k..i + k + |sub|] == sub;
      assert OccursAt(s, sub, i + k);
    }
  }

  /** Stripping a text that holds no `sub` leaves none. */
  lemma StripAvoids(s: string, sub: string)
    requires !Contains(s, sub)
    ensures !Contains(Strip(s), sub)
  {
    var i := StripIsSlice(s);
    NotContainsSlice(s, sub, i, i + |Strip(s)|);
  }

  /** A character in front of a text without `sub` makes no `sub` unless the
      result begins with it. */
  lemma ConsAvoids(c: char, x: string, sub: string)
    requires |sub| > 0 && !Contains(x, sub) && !StartsWith([c] + x, sub)
    ensures !Contains([c] + x, sub)
  {
    var s := [c] + x;
    if Contains(s, sub) {
      var k :| 0 <= k <= |s| - |sub| && OccursAt(s, sub, k);
      assert k > 0;
      forall t | 0 <= t < |sub| ensures x[k - 1 + t] == sub[t] {
        assert s[k..k + |sub|][t] == sub[t];
      }
      assert x[k - 1..k - 1 + |sub|] == sub;
      assert OccursAt(x, sub, k - 1);
    }
  }

  /** `s.rstrip(c)`: drop every trailing `c`. */
  function RStripChar(s: string, c: char): (r: string)
    ensures |r| <= |s| && r == s[..|r|]
    ensures forall i :: |r| <= i < |s| ==> s[i] == c
    ensures r == [] || r[|r| - 1] != c
  {
    if |s| > 0 && s[|s| - 1] == c then RStripChar(s[..|s| - 1], c) else s
  }

  /** `s.lstrip(c)`: drop every leading `c`. */
  function LStripChar(s: string, c: char): (r: string)
    ensures |r| <= |s| && r == s[|s| - |r|..]
    ensures forall i :: 0 <= i < |s| - |r| ==> s[i] == c
    ensures r == [] || r[0] != c
  {
    if |s| > 0 && s[0] == c then LStripChar(s[1..], c) else s
  }

  /** `s.strip(c)`: drop every leading and trailing `c`. */
  function StripChar(s: string, c: char): (r: string)
    ensures r == [] || (r[0] != c && r[|r| - 1] != c)
  {
    var l := LStripChar(s, c);
    var r := RStripChar(l, c);
    assert r != [] ==> r[0] == l[0];
    r
  }

  /** `c.lower()` for ASCII letters; every other character maps to itself. */
  function LowerChar(c: char): char {
    if 'A' <= c <= 'Z' then (c as int - 'A' as int + 'a' as int) as char else c
  }

  /** `s.lower()`, character by character. */
  function Lower(s: string): string {
    seq(|s|, i requires 0 <= i < |s| => LowerChar(s[i]))
  }

  /** `s.replace(a, b)` for one-character `a` and `b`. */
  function ReplaceChar(s: string, a: char, b: char): string {
    seq(|s|, i requires 0 <= i < |s| => if s[i] == a then b else s[i])
  }

  /** `s.startswith(p)`. */
  predicate StartsWith(s: string, p: string) {
    |p| <= |s| && s[..|p|] == p
  }

  /** `s.endswith(p)`. */
  predicate EndsWith(s: string, p: string) {
    |p| <= |s| && s[|s| - |p|..] == p
  }

  /** `sub in s`. */
  predicate Contains(s: string, sub: string) {
    exists i :: 0 <= i <= |s| - |sub| && OccursAt(s, sub, i)
  }

  /** `sub` occurs in `s` starting at index `i`. */
  predicate OccursAt(s: string, sub: string, i: int) {
    0 <= i <= |s| - |sub| && s[i..i + |sub|] == sub
  }

  /** `s.replace(pat, rep)`: non-overlapping occurrences, scanned left to right. */
  function ReplaceAll(s: string, pat: string, rep: string): string
    requires |pat| > 0
    decreases |s|
  {
    if |s| == 0 then []
    else if StartsWith(s, pat) then rep + ReplaceAll(s[|pat|..], pat, rep)
    else [s[0]] + ReplaceAll(s[1..], pat, rep)
  }

  /** Text before which no occurrence of `pat` can begin passes through the
      replacement unchanged. */
  lemma {:induction false} ReplaceAllPlain(x: string, y: string, pat: string, rep: string)
    requires |pat| > 0 && pat[0] !in x
    ensures ReplaceAll(x + y, pat, rep) == x + ReplaceAll(y, pat, rep)
    decreases |x|
  {
    if |x| > 0 {
      assert (x + y)[0] == x[0] != pat[0];
      assert (x + y)[1..] == x[1..] + y;
      ReplaceAllPlain(x[1..], y, pat, rep);
    } else {
      assert x + y == y;
    }
  }

  /** Text that does not begin the pattern keeps its first character. */
  lemma ReplaceAllHead(x: string, pat: string, rep: string)
    requires |pat| > 0 && |x| > 0 && x[0] != pat[0]
    ensures ReplaceAll(x, pat, rep) == [x[0]] + ReplaceAll(x[1..], pat, rep)
  {
  }

  /** Deleting every occurrence can create a new one:
      `"aabb".replace("ab", "")` is `"ab"`. */
  lemma ReplaceAllCanLeavePattern()
    ensures ReplaceAll("aabb", "ab", "") == "ab"
    ensures Contains(ReplaceAll("aabb", "ab", ""), "ab")
  {
    assert !StartsWith("aabb", "ab") by {
      assert "aabb"[..2] != "ab" by { assert "aabb"[1] != "ab"[1]; }
    }
    assert "aabb"[1..] == "abb";
    assert StartsWith("abb", "ab") by { assert "abb"[..2] == "ab"; }
    assert "abb"[2..] == "b";
    assert !StartsWith("b", "ab");
    assert "b"[1..] == [];
    assert OccursAt("ab", "ab", 0);
  }

  /** Text shorter than the pattern holds no occurrence of it. */
  lemma {:induction false} ReplaceAllShort(x: string, pat: string, rep: string)
    requires 0 < |pat| && |x| < |pat|
    ensures ReplaceAll(x, pat, rep) == x
    decreases |x|
  {
    if |x| > 0 {
      ReplaceAllShort(x[1..], pat, rep);
    }
  }

  /** A string ending in `a + b` ends in `b`. */
  lemma EndsWithSuffix(s: string, a: string, b: string)
    requires EndsWith(s, a + b)
    ensures EndsWith(s, b)
  {
    assert s[|s| - |b|..] == (a + b)[|a|..];
  }

  /** `s.rfind(c)`: the index of the last `c` in `s`, or -1. */
  function LastIndex(s: string, c: char): (r: int)
    ensures -1 <= r < |s|
    ensures r >= 0 ==> s[r] == c
    ensures forall k :: r < k < |s| ==> s[k] != c
  {
    if |s| == 0 then -1
    else if s[|s| - 1] == c then |s| - 1
    else LastIndex(s[..|s| - 1], c)
  }

  /** `s.find(c)`: the index of the first `c` in `s`, or -1. */
  function IndexOf(s: string, c: char): (r: int)
    ensures -1 <= r < |s|
    ensures r >= 0 ==> s[r] == c
    ensures forall k :: 0 <= k < |s| && (r < 0 || k < r) ==> s[k] != c
  {
    if |s| == 0 then -1
    else if s[0] == c then 0
    else var r := IndexOf(s[1..], c); if r < 0 then -1 else r + 1
  }

  /** `s.split(c)`: the pieces between the occurrences of `c`, empty pieces included. */
  function Split(s: string, c: char): (parts: seq<string>)
    ensures |parts| >= 1
    ensures forall k :: 0 <= k < |parts| ==> c !in parts[k]
    decreases |s|
  {
    var i := IndexOf(s, c);
    if i < 0 then [s]
    else
      var head := s[..i];
      assert c !in head by {
        forall k | 0 <= k < |head| ensures head[k] != c {
          assert head[k] == s[k];
        }
      }
      var rest := Split(s[i + 1..], c);
      PrependAvoids(head, rest, c);
      [head] + rest
  }

  /** Putting a piece without `c` in front of pieces without `c`. */
  lemma PrependAvoids(head: string, rest: seq<string>, c: char)
    requires c !in head && forall k :: 0 <= k < |rest| ==> c !in rest[k]
    ensures forall k :: 0 <= k < |[head] + rest| ==> c !in ([head] + rest)[k]
  {
    forall k | 0 <= k < |[head] + rest| ensures c !in ([head] + rest)[k] {
      if k > 0 {
        assert ([head] + rest)[k] == rest[k - 1];
      }
    }
  }

  /** `sep.join(parts)`. */
  function Join(parts: seq<string>, sep: string): string {
    if |parts| == 0 then []
    else if |parts| == 1 then parts[0]
    else parts[0] + sep + Join(parts[1..], sep)
  }

  /** Joining the pieces of a split with the separator gives back the string. */
  lemma {:induction false} SplitJoin(s: string, c: char)
    ensures Join(Split(s, c), [c]) == s
    decreases |s|
  {
    var i := IndexOf(s, c);
    if i >= 0 {
      var h, rest := s[..i], s[i + 1..];
      var tail := Split(rest, c);
      SplitUnfoldAt(s, c, Split(s, c), i, tail);
      assert Join(tail, [c]) == rest by {
        SplitJoin(rest, c);
      }
      assert Join([h] + tail, [c]) == h + [c] + rest by {
        JoinCons(h, tail, [c]);
      }
      assert s == h + [c] + rest;
    } else {
      assert Split(s, c) == [s];
    }
  }

  /** Joining a piece in front of at least one more piece. */
  lemma JoinCons(h: string, tail: seq<string>, sep: string)
    requires |tail| > 0
    ensures Join([h] + tail, sep) == h + sep + Join(tail, sep)
  {
    assert ([h] + tail)[1..] == tail;
  }

  /** `s.split(c)[0]` is the text before the first `c`, or all of `s`. */
  lemma SplitFirst(s: string, c: char)
    ensures Split(s, c)[0] == if IndexOf(s, c) < 0 then s else s[..IndexOf(s, c)]
  {
  }

  /** `s.split(c)[-1]` is the text after the last `c`, or all of `s`: it
      starts at index `n`, at the start of the text or just after a `c`,
      and no `c` follows. */
  lemma {:induction false} SplitLast(s: string, c: char) returns (n: nat)
    ensures n <= |s|
    ensures Split(s, c)[|Split(s, c)| - 1] == s[n..]
    ensures n == 0 || s[n - 1] == c
    ensures c !in s[n..]
    decreases |s|, 1
  {
    if IndexOf(s, c) >= 0 {
      n := SplitLastAfterFirst(s, c, Split(s, c));
    } else {
      assert Split(s, c) == [s];
      n := 0;
    }
  }

  /** The step of `SplitLast` for a text that holds a `c`. */
  lemma {:induction false} SplitLastAfterFirst(s: string, c: char, parts: seq<string>) returns (n: nat)
    requires IndexOf(s, c) >= 0 && parts == Split(s, c)
    ensures n <= |s|
    ensures parts[|parts| - 1] == s[n..]
    ensures n == 0 || s[n - 1] == c
    ensures c !in s[n..]
    decreases |s|, 0
  {
    var i := IndexOf(s, c);
    var m := SplitLast(s[i + 1..], c);
    n := i + 1 + m;
    var tail := Split(s[i + 1..], c);
    SplitUnfoldAt(s, c, parts, i, tail);
    LastPieceShift(parts, s[..i], tail, s, i + 1, m);
    AfterSeparator(s, c, i, m);
  }

  /** `s.split(c)` is the text before the first `c`, then the pieces of the
      text after it. */
  lemma SplitUnfoldAt(s: string, c: char, parts: seq<string>, i: nat, tail: seq<string>)
    requires i == IndexOf(s, c) && parts == Split(s, c) && tail == Split(s[i + 1..], c)
    ensures parts == [s[..i]] + tail
  {
  }

  /** The last of the pieces `[h] + tail` is the last of `tail`; when that
      starts at `m` in `s[j..]`, it starts at `j + m` in `s`. */
  lemma LastPieceShift(parts: seq<string>, h: string, tail: seq<string>, s: string, j: nat, m: nat)
    requires parts == [h] + tail && |tail| > 0
    requires j + m <= |s| && tail[|tail| - 1] == s[j..][m..]
    ensures parts[|parts| - 1] == s[j + m..]
  {
    LastOfCons(h, tail);
    assert s[j..][m..] == s[j + m..];
  }

  /** The piece after the `c` at `i` starts right after a `c`. */
  lemma AfterSeparator(s: string, c: char, i: nat, m: nat)
    requires i < |s| && s[i] == c && m <= |s| - i - 1
    requires m == 0 || s[i + 1..][m - 1] == c
    ensures s[i + m] == c
  {
    if m > 0 {
      assert s[i + m] == s[i + 1..][m - 1];
    }
  }

  lemma LastOfCons(h: string, tail: seq<string>)
    requires |tail| > 0
    ensures ([h] + tail)[|[h] + tail| - 1] == tail[|tail| - 1]
  {
  }

  /** `os.path.basename(p)`: the text after the last `/`. */
  function Basename(p: string): (b: string)
    ensures '/' !in b
    ensures EndsWith(p, b)
    ensures '/' !in p ==> b == p
    ensures '/' in p ==> |b| < |p| && p[|p| - |b| - 1] == '/'
  {
    p[LastIndex(p, '/') + 1..]
  }

  /** `os.path.dirname(p)`: everything up to the last `/`, its trailing
      slashes dropped unless it is made of slashes only; empty exactly when
      `p` has no `/`. */
  function Dirname(p: string): (d: string)
    ensures d == [] <==> '/' !in p
    ensures StartsWith(p, d)
  {
    var head := p[..LastIndex(p, '/') + 1];
    if exists k :: 0 <= k < |head| && head[k] != '/' then
      var d := RStripChar(head, '/');
      assert d != [] by {
        var k :| 0 <= k < |head| && head[k] != '/';
        assert |d| > k;
      }
      d
    else head
  }

  /** `os.path.join(a, b)`: `b` alone when it is absolute, else `b` appended
      to `a` with one `/` between them unless `a` is empty or ends in `/`. */
  function JoinPath(a: string, b: string): (r: string)
    ensures EndsWith(r, b)
  {
    if StartsWith(b, "/") then b
    else if a == [] || a[|a| - 1] == '/' then a + b
    else a + "/" + b
  }

  /** `s.rsplit(".", 1)[0]`: the text before the last `.`, or all of `s`. */
  function BeforeLastDot(s: string): (r: string)
    ensures StartsWith(s, r)
    ensures r == s || (|r| < |s| && s[|r|] == '.' && '.' !in s[|r| + 1..])
  {
    var i := LastIndex(s, '.');
    if i < 0 then s else s[..i]
  }

  /** The extension `os.path.splitext(p)[1]` yields (POSIX rules): from the last `.`
      of the last path component, provided that component has a character other
      than `.` before it; otherwise empty. */
  function SplitExt(p: string): (ext: string)
    ensures ext == [] || (|ext| < |p| && EndsWith(p, ext) && ext[0] == '.')
    ensures forall k :: 0 < k < |ext| ==> ext[k] != '.' && ext[k] != '/'
  {
    var sepIndex := LastIndex(p, '/');
    var dotIndex := LastIndex(p, '.');
    if dotIndex > sepIndex && (exists k :: sepIndex + 1 <= k < dotIndex && p[k] != '.')
    then p[dotIndex..]
    else []
  }

  /** Conversely, a last path component `stem + "." + e` whose stem has a
      character other than `.` has the extension `"." + e`, whatever
      directory `dir` (empty, or ending in `/`) precedes it. */
  lemma SplitExtOf(dir: string, stem: string, e: string)
    requires dir == [] || dir[|dir| - 1] == '/'
    requires '/' !in stem && '/' !in e && '.' !in e
    requires exists k :: 0 <= k < |stem| && stem[k] != '.'
    ensures SplitExt(dir + stem + "." + e) == "." + e
  {
    var p := dir + stem + "." + e;
    var dot := |dir| + |stem|;
    assert p[dot] == '.';
    assert forall k :: dot < k < |p| ==> p[k] == e[k - dot - 1];
    LastIndexAt(p, dot, '.');
    assert forall k :: |dir| <= k < |p| ==> p[k] != '/' by {
      forall k | |dir| <= k < |p| ensures p[k] != '/' {
        if k < dot { assert p[k] == stem[k - |dir|]; }
      }
    }
    if dir == [] {
      assert '/' !in p;
    } else {
      LastIndexAt(p, |dir| - 1, '/');
    }
    var k :| 0 <= k < |stem| && stem[k] != '.';
    assert p[|dir| + k] == stem[k];
    assert p[dot..] == "." + e;
  }

  /** A last path component made only of dots followed by a suffix has no
      extension: `.csv` and `dir/..csv` are not CSV files. */
  lemma {:induction false} DotfileHasNoExt(dir: string, dots: nat, name: string)
    requires '/' !in name && '.' !in name
    ensures SplitExt(dir + "/" + seq(dots, _ => '.') + name) == []
  {
    var d := seq(dots, _ => '.');
    var p := dir + "/" + d + name;
    var s := |dir|;
    assert p[s] == '/';
    assert forall k :: s < k < |p| ==> p[k] != '/' by {
      forall k | s < k < |p| ensures p[k] != '/' {
        if k <= s + dots { assert p[k] == d[k - s - 1]; } else { assert p[k] == name[k - s - 1 - dots]; }
      }
    }
    LastIndexAt(p, s, '/');
    var dot := LastIndex(p, '.');
    if dot > s {
      assert forall k :: s + dots < k < |p| ==> p[k] == name[k - s - 1 - dots];
      forall k | s + 1 <= k < dot ensures p[k] == '.' {
        assert p[k] == d[k - s - 1];
      }
    }
  }

  /** The same holds for a bare file name such as `.csv` or `..csv`. */
  lemma DotfileNameHasNoExt(dots: nat, name: string)
    requires '/' !in name && '.' !in name
    ensures SplitExt(seq(dots, _ => '.') + name) == []
  {
    var d := seq(dots, _ => '.');
    var p := d + name;
    forall k | 0 <= k < |p| ensures p[k] != '/' && (k >= dots ==> p[k] != '.') {
      if k < dots { assert p[k] == d[k]; } else { assert p[k] == name[k - dots]; }
    }
    assert LastIndex(p, '/') == -1;
    var dot := LastIndex(p, '.');
    forall k | 0 <= k < dot ensures p[k] == '.' {
      assert p[k] == d[k];
    }
  }

  /** The last `c` is at `i` when `s[i]` is `c` and nothing after it is. */
  lemma {:induction false} LastIndexAt(s: string, i: int, c: char)
    requires 0 <= i < |s| && s[i] == c
    requires forall k :: i < k < |s| ==> s[k] != c
    ensures LastIndex(s, c) == i
    decreases |s|
  {
    if i < |s| - 1 {
      LastIndexAt(s[..|s| - 1], i, c);
    }
  }

  /** Lower-casing leaves the position of a non-letter unchanged. */
  lemma {:induction false} LastIndexLower(s: string, c: char)
    requires !('A' <= c <= 'Z') && !('a' <= c <= 'z')
    ensures LastIndex(Lower(s), c) == LastIndex(s, c)
    decreases |s|
  {
    if |s| > 0 {
      assert Lower(s)[..|s| - 1] == Lower(s[..|s| - 1]);
      LastIndexLower(s[..|s| - 1], c);
    }
  }

  /** `os.path.splitext` commutes with lower-casing, so `X.CSV` and `x.csv`
      have the same lower-cased extension. */
  lemma SplitExtLower(p: string)
    ensures SplitExt(Lower(p)) == Lower(SplitExt(p))
  {
    LastIndexLower(p, '/');
    LastIndexLower(p, '.');
    var lp := Lower(p);
    var sepIndex := LastIndex(p, '/');
    var dotIndex := LastIndex(p, '.');
    if dotIndex > sepIndex {
      if exists k :: sepIndex + 1 <= k < dotIndex && p[k] != '.' {
        var k :| sepIndex + 1 <= k < dotIndex && p[k] != '.';
        assert lp[k] != '.';
        assert lp[dotIndex..] == Lower(p[dotIndex..]);
      } else {
        assert !exists k :: sepIndex + 1 <= k < dotIndex && lp[k] != '.' by {
          forall k | sepIndex + 1 <= k < dotIndex ensures lp[k] == '.' {
            assert p[k] == '.';
          }
        }
      }
    }
  }

  /** Lower-casing twice is lower-casing once. */
  lemma LowerIdempotent(s: string)
    ensures Lower(Lower(s)) == Lower(s)
  {
  }
}
