/** The Python `str` operations the backend relies on, over `string` (a `seq<char>`):
    `in`, `startswith`, `split(sep)`, `sep.join`, `replace`, `strip()` and `split()`. */
module Strings {
  import opened Wrappers

  /** Python's `str.isspace()`. The same character set is what `str.split()`,
      `str.strip()` and the regular-expression class `\s` treat as whitespace. */
  predicate IsSpace(c: char)
  {
    || c == ' '
    || ('\t' <= c <= '\r')
    || ('\U{1C}' <= c <= '\U{1F}')
    || c == '\U{85}' || c == '\U{A0}' || c == '\U{1680}'
    || ('\U{2000}' <= c <= '\U{200A}')
    || c == '\U{2028}' || c == '\U{2029}' || c == '\U{202F}' || c == '\U{205F}' || c == '\U{3000}'
  }

  predicate AllSpace(s: string)
  {
    forall i :: 0 <= i < |s| ==> IsSpace(s[i])
  }

  predicate NoSpace(s: string)
  {
    forall i :: 0 <= i < |s| ==> !IsSpace(s[i])
  }

  /** No whitespace at either end: what `strip()` leaves. */
  predicate Trimmed(s: string)
  {
    |s| == 0 || (!IsSpace(s[0]) && !IsSpace(s[|s| - 1]))
  }

  /** `s` is `r` with some whitespace added in front and behind. */
  ghost predicate PaddedBy(s: string, r: string)
  {
    exists lead: string, trail: string :: AllSpace(lead) && AllSpace(trail) && s == lead + r + trail
  }

  // ---------------------------------------------------------------------------
  // Substring search

  /** `t` occurs in `s` starting at index `k`. */
  predicate OccursAt(s: string, t: string, k: int)
  {
    0 <= k && k + |t| <= |s| && s[k..k + |t|] == t
  }

  /** Python's `t in s`. */
  predicate Contains(s: string, t: string)
  {
    exists k | 0 <= k <= |s| - |t| :: OccursAt(s, t, k)
  }

  /** Python's `s.startswith(prefix)`. */
  predicate StartsWith(s: string, prefix: string)
  {
    |prefix| <= |s| && s[..|prefix|] == prefix
  }

  lemma OccursAtTail(s: string, t: string)
    requires |s| > 0
    ensures forall k :: 1 <= k ==> (OccursAt(s, t, k) <==> OccursAt(s[1..], t, k - 1))
    ensures forall k :: 0 <= k ==> (OccursAt(s[1..], t, k) <==> OccursAt(s, t, k + 1))
  {
    forall k | 0 <= k
      ensures OccursAt(s[1..], t, k) <==> OccursAt(s, t, k + 1)
    {
      if k + |t| <= |s| - 1 {
        assert s[1..][k..k + |t|] == s[k + 1..k + 1 + |t|];
      }
    }
  }

  /** The first index at which `t` occurs in `s` (Python's `s.find(t)`, with `None` for -1). */
  function Find(s: string, t: string): (r: Option<nat>)
    ensures r.Some? ==> OccursAt(s, t, r.value)
    ensures r.Some? ==> forall j :: 0 <= j < r.value ==> !OccursAt(s, t, j)
    ensures r.None? <==> !Contains(s, t)
    decreases |s|
  {
    if |s| < |t| then None
    else if s[..|t|] == t then
      assert OccursAt(s, t, 0);
      Some(0)
    else
      OccursAtTail(s, t);
      match Find(s[1..], t)
      case None =>
        assert !OccursAt(s, t, 0);
        None
      case Some(k) =>
        assert !OccursAt(s, t, 0);
        Some(k + 1)
  }

  /** When the first character of `t` does not recur in `t`, an occurrence of `t` right
      after a stretch free of `t` is the first one. */
  lemma FindAfterPrefix(a: string, t: string, b: string)
    requires |t| > 0 && t[0] !in t[1..]
    requires !Contains(a, t)
    ensures Find(a + t + b, t) == Some(|a|)
  {
    var s := a + t + b;
    assert OccursAt(s, t, |a|) by {
      assert s[|a|..|a| + |t|] == t;
    }
    forall k | 0 <= k < |a|
      ensures !OccursAt(s, t, k)
    {
      if k + |t| <= |a| {
        assert !OccursAt(a, t, k);
        assert s[k..k + |t|] == a[k..k + |t|];
      } else if k + |t| <= |s| {
        var d := |a| - k;
        assert t[1..][d - 1] == t[d] != t[0];
        assert s[k..k + |t|][d] == s[|a|] == t[0];
      }
    }
  }

  lemma OccursInPrefix(s: string, t: string, n: int, k: int)
    requires 0 <= n <= |s|
    requires OccursAt(s[..n], t, k)
    ensures OccursAt(s, t, k) && k + |t| <= n
  {
    assert s[..n][k..k + |t|] == s[k..k + |t|];
  }

  /** A prefix of `s` that ends before the first occurrence of `t` does not contain `t`. */
  lemma NoOccurrenceBefore(s: string, t: string, n: int)
    requires 0 <= n <= |s| && |t| > 0
    requires forall j :: 0 <= j < n ==> !OccursAt(s, t, j)
    ensures !Contains(s[..n], t)
  {
    forall k | OccursAt(s[..n], t, k)
      ensures false
    {
      OccursInPrefix(s, t, n, k);
    }
  }

  lemma ContainsPrefix(s: string, t: string, n: int)
    requires 0 <= n <= |s|
    requires !Contains(s, t)
    ensures !Contains(s[..n], t)
  {
    forall k | OccursAt(s[..n], t, k)
      ensures false
    {
      OccursInPrefix(s, t, n, k);
    }
  }

  /** A single-character substring test is a membership test. */
  lemma ContainsChar(s: string, c: char)
    ensures Contains(s, [c]) <==> c in s
  {
    if c in s {
      var k :| 0 <= k < |s| && s[k] == c;
      assert OccursAt(s, [c], k);
    }
    if Contains(s, [c]) {
      var k :| 0 <= k <= |s| - 1 && OccursAt(s, [c], k);
      assert s[k] == s[k..k + 1][0] == c;
    }
  }

  // ---------------------------------------------------------------------------
  /** A string starts with whatever was put in front of it. */
  lemma StartsWithConcat(p: string, s: string)
    ensures StartsWith(p + s, p)
  {
    assert (p + s)[..|p|] == p;
  }

  // split / join / replace

  /** Python's `sep.join(parts)`. */
  function Join(parts: seq<string>, sep: string): string
  {
    if |parts| == 0 then ""
    else if |parts| == 1 then parts[0]
    else parts[0] + sep + Join(parts[1..], sep)
  }

  /** Python's `s.split(sep)` for a non-empty separator: the pieces between the
      leftmost non-overlapping occurrences of `sep`, scanning left to right. */
  function Split(s: string, sep: string): (parts: seq<string>)
    requires |sep| > 0
    ensures |parts| >= 1
    ensures Join(parts, sep) == s
    ensures forall i :: 0 <= i < |parts| ==> !Contains(parts[i], sep)
    ensures StartsWith(s, parts[0]) && (|parts[0]| == |s| || OccursAt(s, sep, |parts[0]|))
    ensures forall j :: 0 <= j < |parts[0]| ==> !OccursAt(s, sep, j)
    ensures |parts| == 1 <==> !Contains(s, sep)
    decreases |s|
  {
    match Find(s, sep)
    case None => [s]
    case Some(k) =>
      var rest := Split(s[k + |sep|..], sep);
      SplitAtFirst(s, sep, k, rest);
      [s[..k]] + rest
  }

  /** The pieces of `s` are the text before the first separator followed by the pieces
      of what comes after it. */
  lemma SplitAtFirst(s: string, sep: string, k: nat, rest: seq<string>)
    requires |sep| > 0 && Find(s, sep) == Some(k)
    requires |rest| >= 1 && Join(rest, sep) == s[k + |sep|..]
    requires forall i :: 0 <= i < |rest| ==> !Contains(rest[i], sep)
    ensures var parts := [s[..k]] + rest;
            && Join(parts, sep) == s
            && (forall i :: 0 <= i < |parts| ==> !Contains(parts[i], sep))
            && StartsWith(s, parts[0]) && OccursAt(s, sep, |parts[0]|)
            && (forall j :: 0 <= j < |parts[0]| ==> !OccursAt(s, sep, j))
            && Contains(s, sep)
  {
    SplitAtFirstJoin(s, sep, k, rest);
    SplitAtFirstPieces(s, sep, k, rest);
  }

  lemma SplitAtFirstJoin(s: string, sep: string, k: nat, rest: seq<string>)
    requires |sep| > 0 && OccursAt(s, sep, k)
    requires |rest| >= 1 && Join(rest, sep) == s[k + |sep|..]
    ensures Join([s[..k]] + rest, sep) == s
  {
    var parts := [s[..k]] + rest;
    assert parts[1..] == rest;
    assert Join(parts, sep) == s[..k] + sep + s[k + |sep|..];
    assert s == s[..k] + sep + s[k + |sep|..];
  }

  lemma SplitAtFirstPieces(s: string, sep: string, k: nat, rest: seq<string>)
    requires |sep| > 0 && Find(s, sep) == Some(k)
    requires forall i :: 0 <= i < |rest| ==> !Contains(rest[i], sep)
    ensures forall i :: 0 <= i < |[s[..k]] + rest| ==> !Contains(([s[..k]] + rest)[i], sep)
  {
    var parts := [s[..k]] + rest;
    NoOccurrenceBefore(s, sep, k);
    forall i | 0 <= i < |parts|
      ensures !Contains(parts[i], sep)
    {
      if i > 0 {
        assert parts[i] == rest[i - 1];
      }
    }
  }

  /** Splitting at a character that no piece contains recovers the pieces. */
  lemma {:induction false} SplitJoin(parts: seq<string>, c: char)
    requires |parts| >= 1
    requires forall i :: 0 <= i < |parts| ==> c !in parts[i]
    ensures Split(Join(parts, [c]), [c]) == parts
    decreases |parts|
  {
    var s := Join(parts, [c]);
    if |parts| == 1 {
      ContainsChar(s, c);
    } else {
      var p := parts[0];
      var rest := Join(parts[1..], [c]);
      assert s == p + [c] + rest;
      assert OccursAt(s, [c], |p|) by {
        assert s[|p|..|p| + 1] == [c];
      }
      forall j | 0 <= j < |p|
        ensures !OccursAt(s, [c], j)
      {
        assert s[j] == p[j];
      }
      match Find(s, [c])
      case Some(k) =>
        assert k == |p|;
        assert s[k + 1..] == rest;
        assert s[..k] == p;
        SplitJoin(parts[1..], c);
    }
  }

  /** `s.split(c)` has one more piece than `s` has occurrences of `c`. */
  lemma {:induction false} SplitCount(s: string, c: char)
    ensures |Split(s, [c])| == multiset(s)[c] + 1
    decreases |s|
  {
    match Find(s, [c])
    case None =>
      ContainsChar(s, c);
    case Some(k) =>
      assert s[k..k + 1] == [c];
      assert s == s[..k] + [c] + s[k + 1..];
      assert c !in s[..k] by {
        NoOccurrenceBefore(s, [c], k);
        ContainsChar(s[..k], c);
      }
      SplitCount(s[k + 1..], c);
  }

  /** Python's `s.replace(target, replacement)` for a non-empty `target`: every leftmost
      non-overlapping occurrence of `target` becomes `replacement`. */
  function ReplaceAll(s: string, target: string, replacement: string): (r: string)
    requires |target| > 0
    ensures !Contains(s, target) ==> r == s
  {
    Join(Split(s, target), replacement)
  }

  /** `replace` works left to right: the text before the first occurrence of `target` is
      kept, that occurrence becomes `replacement`, and the rest is replaced the same way.
      With the case of no occurrence this determines `ReplaceAll` on every string. */
  lemma ReplaceAllLeftmost(s: string, target: string, replacement: string)
    requires |target| > 0
    ensures Find(s, target).Some? ==>
              var k := Find(s, target).value;
              ReplaceAll(s, target, replacement)
              == s[..k] + replacement + ReplaceAll(s[k + |target|..], target, replacement)
  {
    if Find(s, target).Some? {
      var k := Find(s, target).value;
      var rest := Split(s[k + |target|..], target);
      assert Split(s, target) == [s[..k]] + rest;
      JoinCons(s[..k], rest, replacement);
    }
  }

  /** Joining a piece in front of at least one more piece puts the separator between. */
  lemma JoinCons(p: string, ps: seq<string>, sep: string)
    requires |ps| >= 1
    ensures Join([p] + ps, sep) == p + sep + Join(ps, sep)
  {
    assert ([p] + ps)[1..] == ps;
  }

  // ---------------------------------------------------------------------------
  // strip()

  /** The index of the first non-whitespace character of `s` at or after `i`, or `|s|`. */
  function LeadEnd(s: string, i: nat): (n: nat)
    requires i <= |s|
    ensures i <= n <= |s|
    ensures forall j :: i <= j < n ==> IsSpace(s[j])
    ensures n < |s| ==> !IsSpace(s[n])
    decreases |s| - i
  {
    if i < |s| && IsSpace(s[i]) then LeadEnd(s, i + 1) else i
  }

  /** The index just past the last non-whitespace character of `s[lo..m]`, or `lo`. */
  function TrailStart(s: string, lo: nat, m: nat): (n: nat)
    requires lo <= m <= |s|
    ensures lo <= n <= m
    ensures forall j :: n <= j < m ==> IsSpace(s[j])
    ensures n > lo ==> !IsSpace(s[n - 1])
    decreases m
  {
    if m > lo && IsSpace(s[m - 1]) then TrailStart(s, lo, m - 1) else m
  }

  /** Python's `s.strip()`: `s` without its leading and trailing whitespace. */
  function Strip(s: string): (r: string)
    ensures Trimmed(r)
    ensures PaddedBy(s, r)
  {
    var a := LeadEnd(s, 0);
    var b := TrailStart(s, a, |s|);
    StripSlice(s, a, b);
    s[a..b]
  }

  /** Cutting off a whitespace prefix and a whitespace suffix at non-whitespace
      boundaries leaves a trimmed middle. */
  lemma StripSlice(s: string, a: nat, b: nat)
    requires a <= b <= |s|
    requires forall j :: 0 <= j < a ==> IsSpace(s[j])
    requires forall j :: b <= j < |s| ==> IsSpace(s[j])
    requires a < |s| ==> !IsSpace(s[a])
    requires b > a ==> !IsSpace(s[b - 1])
    ensures Trimmed(s[a..b]) && PaddedBy(s, s[a..b])
  {
    var lead, r, trail := s[..a], s[a..b], s[b..];
    assert s == lead + r + trail;
    assert AllSpace(lead) && AllSpace(trail);
  }

  /** Stripping is the identity on a string with no outer whitespace. */
  lemma StripTrimmed(s: string)
    requires Trimmed(s)
    ensures Strip(s) == s
  {
  }

  /** Every piece stripped, in place. */
  function StripEach(parts: seq<string>): (r: seq<string>)
    ensures |r| == |parts|
    ensures forall i :: 0 <= i < |r| ==> Trimmed(r[i]) && PaddedBy(parts[i], r[i])
  {
    seq(|parts|, i requires 0 <= i < |parts| => Strip(parts[i]))
  }

  /** Python's `[x.strip() for x in s.split(sep)]`. */
  function SplitStrip(s: string, sep: string): (r: seq<string>)
    requires |sep| > 0
    ensures |r| == |Split(s, sep)|
    ensures forall i :: 0 <= i < |r| ==> Trimmed(r[i]) && PaddedBy(Split(s, sep)[i], r[i])
  {
    StripEach(Split(s, sep))
  }

  /** Stripping pieces that are already trimmed changes nothing. */
  lemma StripEachTrimmed(parts: seq<string>)
    requires forall i :: 0 <= i < |parts| ==> Trimmed(parts[i])
    ensures StripEach(parts) == parts
  {
    var r := StripEach(parts);
    forall i | 0 <= i < |parts|
      ensures r[i] == parts[i]
    {
      StripTrimmed(parts[i]);
    }
  }

  /** Joining trimmed, separator-free pieces and splitting-and-stripping them again
      gives the pieces back. */
  lemma SplitStripJoin(parts: seq<string>, c: char)
    requires |parts| >= 1
    requires forall i :: 0 <= i < |parts| ==> c !in parts[i] && Trimmed(parts[i])
    ensures SplitStrip(Join(parts, [c]), [c]) == parts
  {
    SplitJoin(parts, c);
    StripEachTrimmed(parts);
  }

  // ---------------------------------------------------------------------------
  // split() with no separator: whitespace-delimited words

  /** The length of the run of non-whitespace characters that starts `s`. */
  function TokenEnd(s: string): (n: nat)
    ensures n <= |s|
    ensures forall i :: 0 <= i < n ==> !IsSpace(s[i])
    ensures n < |s| ==> IsSpace(s[n])
  {
    if |s| == 0 || IsSpace(s[0]) then 0 else 1 + TokenEnd(s[1..])
  }

  /** Python's `s.split()`: the maximal runs of non-whitespace characters, in order. */
  function Words(s: string): (ws: seq<string>)
    ensures forall i :: 0 <= i < |ws| ==> |ws[i]| > 0 && NoSpace(ws[i])
    decreases |s|
  {
    if |s| == 0 then []
    else if IsSpace(s[0]) then Words(s[1..])
    else
      var n := TokenEnd(s);
      [s[..n]] + Words(s[n..])
  }

  /** Python's `len(s.split())`. */
  function WordCount(s: string): nat
  {
    |Words(s)|
  }

  function Concat(xs: seq<string>): string
  {
    if |xs| == 0 then "" else xs[0] + Concat(xs[1..])
  }

  /** `s` with every whitespace character deleted. */
  function RemoveSpaces(s: string): string
  {
    if |s| == 0 then ""
    else if IsSpace(s[0]) then RemoveSpaces(s[1..])
    else [s[0]] + RemoveSpaces(s[1..])
  }

  lemma {:induction false} RemoveSpacesAppend(a: string, b: string)
    ensures RemoveSpaces(a + b) == RemoveSpaces(a) + RemoveSpaces(b)
    decreases |a|
  {
    if |a| > 0 {
      assert (a + b)[1..] == a[1..] + b;
      RemoveSpacesAppend(a[1..], b);
    } else {
      assert a + b == b;
    }
  }

  lemma {:induction false} RemoveSpacesNoSpace(a: string)
    requires NoSpace(a)
    ensures RemoveSpaces(a) == a
    decreases |a|
  {
    if |a| > 0 {
      RemoveSpacesNoSpace(a[1..]);
    }
  }

  /** Splitting into words loses and reorders nothing but whitespace. */
  lemma {:induction false} WordsKeepText(s: string)
    ensures Concat(Words(s)) == RemoveSpaces(s)
    decreases |s|
  {
    if |s| == 0 {
    } else if IsSpace(s[0]) {
      WordsKeepText(s[1..]);
    } else {
      var n := TokenEnd(s);
      assert s == s[..n] + s[n..];
      RemoveSpacesAppend(s[..n], s[n..]);
      RemoveSpacesNoSpace(s[..n]);
      WordsKeepText(s[n..]);
      assert Words(s)[1..] == Words(s[n..]);
    }
  }

  lemma {:induction false} TokenEndAppend(a: string, b: string)
    requires TokenEnd(a) < |a| || (|b| > 0 && IsSpace(b[0]))
    ensures TokenEnd(a + b) == TokenEnd(a)
    decreases |a|
  {
    if |a| == 0 {
      assert a + b == b;
    } else if !IsSpace(a[0]) {
      assert (a + b)[1..] == a[1..] + b;
      TokenEndAppend(a[1..], b);
    }
  }

  lemma {:induction false} WordsSkipSpace(w: string, b: string)
    requires AllSpace(w)
    ensures Words(w + b) == Words(b)
    decreases |w|
  {
    if |w| == 0 {
      assert w + b == b;
    } else {
      assert (w + b)[1..] == w[1..] + b;
      WordsSkipSpace(w[1..], b);
    }
  }

  /** Leading whitespace of a prefix is skipped whatever follows it. */
  lemma WordsSpaceStep(a: string, c: string)
    requires |a| > 0 && IsSpace(a[0])
    ensures Words(a + c) == Words(a[1..] + c)
    ensures Words(a) == Words(a[1..])
  {
    assert (a + c)[0] == a[0];
    assert (a + c)[1..] == a[1..] + c;
  }

  /** A word that ends inside a prefix, or where whitespace follows it, is the first
      word whatever follows. */
  lemma WordsTokenStep(a: string, c: string)
    requires |a| > 0 && !IsSpace(a[0])
    requires TokenEnd(a) < |a| || (|c| > 0 && IsSpace(c[0]))
    ensures TokenEnd(a) > 0
    ensures Words(a + c) == [a[..TokenEnd(a)]] + Words(a[TokenEnd(a)..] + c)
  {
    var n := TokenEnd(a);
    var s := a + c;
    assert s[0] == a[0];
    TokenEndAppend(a, c);
    WordsFirstToken(s);
    SliceOfAppend(a, c, n);
  }

  /** Cutting a concatenation inside its left operand. */
  lemma SliceOfAppend(a: string, c: string, n: nat)
    requires n <= |a|
    ensures (a + c)[..n] == a[..n] && (a + c)[n..] == a[n..] + c
  {
  }

  /** A string that starts with a non-whitespace character has its first word first. */
  lemma WordsFirstToken(s: string)
    requires |s| > 0 && !IsSpace(s[0])
    ensures TokenEnd(s) > 0
    ensures Words(s) == [s[..TokenEnd(s)]] + Words(s[TokenEnd(s)..])
  {
  }

  /** Words never run across a whitespace character: a suffix that starts with one
      contributes its own words after those of the prefix. */
  lemma {:induction false} WordsBeforeSpace(a: string, c: string)
    requires |c| > 0 && IsSpace(c[0])
    ensures Words(a + c) == Words(a) + Words(c)
    decreases |a|
  {
    if |a| == 0 {
      assert a + c == c;
    } else if IsSpace(a[0]) {
      WordsSpaceStep(a, c);
      WordsBeforeSpace(a[1..], c);
    } else {
      WordsFirstToken(a);
      WordsBeforeSpace(a[TokenEnd(a)..], c);
      WordsTokenThenSpace(a, c);
    }
  }

  /** The induction step of `WordsBeforeSpace` for a prefix that starts with a word. */
  lemma WordsTokenThenSpace(a: string, c: string)
    requires |a| > 0 && !IsSpace(a[0]) && |c| > 0 && IsSpace(c[0])
    requires Words(a[TokenEnd(a)..] + c) == Words(a[TokenEnd(a)..]) + Words(c)
    ensures Words(a + c) == Words(a) + Words(c)
  {
    var n := TokenEnd(a);
    WordsTokenStep(a, c);
    WordsFirstToken(a);
    ConsAppend(Words(a + c), Words(a), a[..n], Words(a[n..]), Words(c));
  }

  lemma ConsAppend(w: seq<string>, x: seq<string>, h: string, t: seq<string>, u: seq<string>)
    requires w == [h] + (t + u) && x == [h] + t
    ensures w == x + u
  {
  }

  /** A non-empty run of whitespace separates the words on either side of it. */
  lemma WordsAcrossGap(a: string, w: string, b: string)
    requires |w| > 0 && AllSpace(w)
    ensures Words(a + w + b) == Words(a) + Words(b)
  {
    assert a + w + b == a + (w + b);
    WordsBeforeSpace(a, w + b);
    WordsSkipSpace(w, b);
  }

  /** A non-empty run of non-whitespace characters is one word, nothing more. */
  lemma WordsOfWord(w: string)
    requires |w| > 0 && NoSpace(w)
    ensures Words(w) == [w]
  {
    assert TokenEnd(w) == |w|;
    assert w[..|w|] == w;
  }

  /** A run of whitespace holds no word. */
  lemma WordsOfSpace(w: string)
    requires AllSpace(w)
    ensures Words(w) == []
  {
    assert w + "" == w;
    WordsSkipSpace(w, "");
  }

  // ---------------------------------------------------------------------------
  // Layout of a join

  /** The number of characters in all of `ps`. */
  function TotalLength(ps: seq<string>): nat
  {
    if |ps| == 0 then 0 else |ps[0]| + TotalLength(ps[1..])
  }

  /** Where piece `i` starts in `Join(ps, [c])`: after every earlier piece and its separator. */
  function PieceStart(ps: seq<string>, i: nat): nat
    requires i <= |ps|
  {
    if i == 0 then 0 else |ps[0]| + 1 + PieceStart(ps[1..], i - 1)
  }

  /** Piece `i` of `ps` sits in `j` at its start offset, followed by `c` unless it is the last. */
  predicate PieceAt(j: string, ps: seq<string>, i: nat, c: char)
    requires i < |ps|
  {
    var k := PieceStart(ps, i);
    && k + |ps[i]| <= |j|
    && j[k..k + |ps[i]|] == ps[i]
    && (i < |ps| - 1 ==> k + |ps[i]| < |j| && j[k + |ps[i]|] == c)
  }

  /** `Join(ps, [c])` is exactly the pieces in order with one `c` between neighbours:
      its length, and each piece at its offset followed by the separator unless it is the last. */
  lemma {:induction false} JoinLayout(ps: seq<string>, c: char)
    ensures |ps| == 0 ==> Join(ps, [c]) == ""
    ensures |ps| > 0 ==> |Join(ps, [c])| == TotalLength(ps) + |ps| - 1
    ensures forall i :: 0 <= i < |ps| ==> PieceAt(Join(ps, [c]), ps, i, c)
    decreases |ps|
  {
    if |ps| == 1 {
      assert Join(ps, [c]) == ps[0];
      assert TotalLength(ps) == |ps[0]| + TotalLength(ps[1..]);
      assert Join(ps, [c])[0..|ps[0]|] == ps[0];
    } else if |ps| > 1 {
      JoinLayout(ps[1..], c);
      assert Join(ps, [c]) == ps[0] + [c] + Join(ps[1..], [c]);
      forall i | 0 <= i < |ps|
        ensures PieceAt(Join(ps, [c]), ps, i, c)
      {
        if i == 0 {
          PieceAtFirst(ps, c);
        } else {
          assert PieceAt(Join(ps[1..], [c]), ps[1..], i - 1, c);
          PieceAtStep(ps, c, i);
        }
      }
    }
  }

  /** The first of several pieces starts the join and is followed by the separator. */
  lemma PieceAtFirst(ps: seq<string>, c: char)
    requires 1 < |ps|
    ensures PieceAt(Join(ps, [c]), ps, 0, c)
  {
    var j := Join(ps, [c]);
    assert j == ps[0] + ([c] + Join(ps[1..], [c]));
    assert j[..|ps[0]|] == ps[0];
    assert j[|ps[0]|] == c;
  }

  /** A later piece lies in the join shifted by the first piece and a separator. */
  lemma PieceAtStep(ps: seq<string>, c: char, i: nat)
    requires 1 < |ps| && 0 < i < |ps|
    requires PieceAt(Join(ps[1..], [c]), ps[1..], i - 1, c)
    ensures PieceAt(Join(ps, [c]), ps, i, c)
  {
    var x := ps[0] + [c];
    assert Join(ps, [c]) == x + Join(ps[1..], [c]);
    ShiftedPiece(ps, c, i, Join(ps, [c]), x, Join(ps[1..], [c]));
  }

  /** Piece `i - 1` of `ps[1..]`, found in `y`, is piece `i` of `ps` in `x + y` when `x`
      is as long as the first piece and a separator. */
  lemma ShiftedPiece(ps: seq<string>, c: char, i: nat, j: string, x: string, y: string)
    requires 0 < i < |ps| && j == x + y && |x| == |ps[0]| + 1
    requires PieceAt(y, ps[1..], i - 1, c)
    ensures PieceAt(j, ps, i, c)
  {
    var k := PieceStart(ps[1..], i - 1);
    var w := ps[i];
    assert ps[1..][i - 1] == w;
    assert PieceStart(ps, i) == |x| + k;
    assert j[|x| + k..|x| + k + |w|] == y[k..k + |w|];
  }
}
