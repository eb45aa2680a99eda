/** The PHP string functions the tasks use, on `seq<char>`: `explode`,
    `implode`, `str_replace`, and `preg_replace` with a pattern that has no
    metacharacters (so it matches itself literally). */
module Text {

  /** `w` occurs in `s` starting at index `i`. */
  predicate OccursAt(s: string, w: string, i: int)
  {
    0 <= i && i + |w| <= |s| && s[i..i + |w|] == w
  }

  /** `w` occurs somewhere in `s`. */
  predicate Contains(s: string, w: string)
  {
    exists i | 0 <= i <= |s| - |w| :: OccursAt(s, w, i)
  }

  /** `s` begins with `p` (an anchored `preg_match('/^p/', s)`). */
  predicate StartsWith(s: string, p: string)
  {
    |p| <= |s| && s[..|p|] == p
  }

  /** No character of `w` is a character of `cs`. */
  predicate NoneOf(w: string, cs: string)
  {
    forall k | 0 <= k < |w| :: w[k] !in cs
  }

  /** `implode(sep, parts)`. */
  function Join(parts: seq<string>, sep: string): string
  {
    if |parts| == 0 then []
    else if |parts| == 1 then parts[0]
    else parts[0] + sep + Join(parts[1..], sep)
  }

  /** `explode(sep, s)`: the pieces of `s` between the occurrences of `sep`,
      found scanning left to right. Joining them back with `sep` gives `s`. */
  function Split(s: string, sep: string): (parts: seq<string>)
    requires sep != []
    ensures |parts| >= 1
    ensures Join(parts, sep) == s
    decreases |s|
  {
    if |s| < |sep| then [s]
    else if s[..|sep|] == sep then
      assert s == sep + s[|sep|..];
      [[]] + Split(s[|sep|..], sep)
    else
      var rest := Split(s[1..], sep);
      JoinConsHead(s[0], rest, sep);
      [[s[0]] + rest[0]] + rest[1..]
  }

  /** Replaces every occurrence of `pat` in `s` by `rep`, scanning left to right
      and resuming after each replaced occurrence. This is PHP's `str_replace`,
      and `preg_replace` with a metacharacter-free pattern; the result is
      `implode(rep, explode(pat, s))`. */
  function ReplaceAll(s: string, pat: string, rep: string): (r: string)
    requires pat != []
    ensures |rep| == |pat| ==> |r| == |s|
    ensures |rep| <= |pat| ==> |r| <= |s|
    decreases |s|
  {
    if |s| < |pat| then s
    else if s[..|pat|] == pat then rep + ReplaceAll(s[|pat|..], pat, rep)
    else [s[0]] + ReplaceAll(s[1..], pat, rep)
  }

  /** Replace-all agrees with `implode(rep, explode(pat, s))`: the pieces
      between occurrences are kept and every occurrence becomes `rep`. */
  lemma {:induction false} ReplaceAllIsImplodeExplode(s: string, pat: string, rep: string)
    requires pat != []
    ensures ReplaceAll(s, pat, rep) == Join(Split(s, pat), rep)
    decreases |s|
  {
    if |s| < |pat| {
    } else if s[..|pat|] == pat {
      ReplaceAllIsImplodeExplode(s[|pat|..], pat, rep);
    } else {
      ReplaceAllIsImplodeExplode(s[1..], pat, rep);
      JoinConsHead(s[0], Split(s[1..], pat), rep);
    }
  }

  /** Prepending a character to the first piece prepends it to the joined string. */
  lemma JoinConsHead(c: char, parts: seq<string>, sep: string)
    requires |parts| >= 1
    ensures Join([[c] + parts[0]] + parts[1..], sep) == [c] + Join(parts, sep)
  {
    var ps := [[c] + parts[0]] + parts[1..];
    assert ps[1..] == parts[1..];
  }

  /** The joined string begins with the first piece. */
  lemma JoinStartsWithHead(parts: seq<string>, sep: string)
    requires |parts| >= 1
    ensures StartsWith(Join(parts, sep), parts[0])
  {
    if |parts| > 1 {
      assert Join(parts, sep) == parts[0] + (sep + Join(parts[1..], sep));
    }
  }

  /** An occurrence after the first character of `[c] + t` is an occurrence in `t`. */
  lemma OccursAtTail(c: char, t: string, w: string, i: int)
    requires i >= 1
    ensures OccursAt([c] + t, w, i) <==> OccursAt(t, w, i - 1)
  {
    if i + |w| <= |t| + 1 {
      assert ([c] + t)[i..i + |w|] == t[i - 1..i - 1 + |w|];
    }
  }

  /** An occurrence after a prefix `u` of `u + t` is an occurrence in `t`. */
  lemma OccursAtAfter(u: string, t: string, w: string, i: int)
    requires i >= |u|
    ensures OccursAt(u + t, w, i) <==> OccursAt(t, w, i - |u|)
  {
    if i + |w| <= |u| + |t| {
      assert (u + t)[i..i + |w|] == t[i - |u|..i - |u| + |w|];
    }
  }

  /** No piece `explode` returns contains the separator. */
  lemma {:induction false} SplitPiecesFree(s: string, sep: string)
    requires sep != []
    ensures forall k | 0 <= k < |Split(s, sep)| :: !Contains(Split(s, sep)[k], sep)
    decreases |s|
  {
    var parts := Split(s, sep);
    if |s| < |sep| {
      assert parts == [s];
    } else if s[..|sep|] == sep {
      SplitPiecesFree(s[|sep|..], sep);
      assert parts == [[]] + Split(s[|sep|..], sep);
      forall k | 0 <= k < |parts| ensures !Contains(parts[k], sep) {
        if k > 0 {
          assert parts[k] == Split(s[|sep|..], sep)[k - 1];
        }
      }
    } else {
      var rest := Split(s[1..], sep);
      SplitPiecesFree(s[1..], sep);
      assert parts == [[s[0]] + rest[0]] + rest[1..];
      var head := [s[0]] + rest[0];
      JoinStartsWithHead(rest, sep);
      assert head == s[..|head|];
      forall i | 0 <= i <= |head| - |sep| ensures !OccursAt(head, sep, i) {
        if i == 0 {
          assert head[..|sep|] == s[..|sep|];
        } else {
          OccursAtTail(s[0], rest[0], sep, i);
        }
      }
      forall k | 0 <= k < |parts| ensures !Contains(parts[k], sep) {
        if k > 0 {
          assert parts[k] == rest[k];
        }
      }
    }
  }

  /** `explode` returns the whole string as its only piece exactly when the
      separator does not occur in it. */
  lemma {:induction false} SplitSingletonIffAbsent(s: string, sep: string)
    requires sep != []
    ensures Split(s, sep) == [s] <==> !Contains(s, sep)
    decreases |s|
  {
    SplitPiecesFree(s, sep);
    if |s| >= |sep| && !Contains(s, sep) {
      assert !OccursAt(s, sep, 0);
      forall i | 0 <= i <= |s[1..]| - |sep| ensures !OccursAt(s[1..], sep, i) {
        assert s == [s[0]] + s[1..];
        OccursAtTail(s[0], s[1..], sep, i + 1);
      }
      SplitSingletonIffAbsent(s[1..], sep);
      assert Split(s, sep) == [[s[0]] + s[1..]];
      assert [s[0]] + s[1..] == s;
    }
  }

  /** Replacing a pattern that does not occur changes nothing. */
  lemma ReplaceAllAbsent(s: string, pat: string, rep: string)
    requires pat != []
    ensures !Contains(s, pat) ==> ReplaceAll(s, pat, rep) == s
  {
    SplitSingletonIffAbsent(s, pat);
    ReplaceAllIsImplodeExplode(s, pat, rep);
  }

  /** Replacing a pattern by itself changes nothing: `explode` then `implode`
      with the same separator is the identity. */
  lemma ReplaceAllSelf(s: string, pat: string)
    requires pat != []
    ensures ReplaceAll(s, pat, pat) == s
  {
    ReplaceAllIsImplodeExplode(s, pat, pat);
  }

  /** While the replaced text shows no character of the replacement, it is
      the input unchanged: up to the first replacement, nothing differs. */
  lemma {:induction false} ReplaceAllPrefixUntouched(s: string, pat: string, rep: string, k: nat)
    requires pat != [] && rep != []
    ensures k <= |ReplaceAll(s, pat, rep)| && NoneOf(ReplaceAll(s, pat, rep)[..k], rep)
            ==> k <= |s| && ReplaceAll(s, pat, rep)[..k] == s[..k]
    decreases |s|
  {
    var r := ReplaceAll(s, pat, rep);
    if k == 0 || |s| < |pat| {
    } else if s[..|pat|] == pat {
      if k <= |r| {
        assert r[..k][0] == rep[0];
      }
    } else {
      var r' := ReplaceAll(s[1..], pat, rep);
      assert r == [s[0]] + r';
      if k <= |r| && NoneOf(r[..k], rep) {
        var head := r'[..k - 1];
        forall j | 0 <= j < |head| ensures head[j] !in rep {
          assert head[j] == r[..k][j + 1];
        }
        ReplaceAllPrefixUntouched(s[1..], pat, rep, k - 1);
        assert r[..k] == [s[0]] + head;
        assert s[..k] == [s[0]] + s[1..][..k - 1];
      }
    }
  }

  /** Character disjointness is symmetric. */
  lemma NoneOfSymmetric(a: string, b: string)
    requires NoneOf(a, b)
    ensures NoneOf(b, a)
  {
    forall k | 0 <= k < |b| ensures b[k] !in a {
      forall j | 0 <= j < |a| ensures a[j] != b[k] {
        assert a[j] !in b;
      }
    }
  }

  /** Text at the very front of a replace-all result that keeps clear of the
      replacement's characters was already at the front of the input. */
  lemma FirstWindowUntouched(s: string, pat: string, rep: string, w: string)
    requires pat != [] && rep != [] && |s| >= 1 && |w| >= 1
    requires NoneOf(w, rep)
    ensures OccursAt([s[0]] + ReplaceAll(s[1..], pat, rep), w, 0) ==> OccursAt(s, w, 0)
  {
    var r' := ReplaceAll(s[1..], pat, rep);
    var k := |w| - 1;
    ReplaceAllPrefixUntouched(s[1..], pat, rep, k);
    if OccursAt([s[0]] + r', w, 0) {
      var head := r'[..k];
      assert head == w[1..];
      forall j | 0 <= j < |head| ensures head[j] !in rep {
        assert head[j] == w[j + 1];
      }
      assert s[..|w|] == [s[0]] + s[1..][..k];
    }
  }

  /** When the replacement shares no character with the pattern, no
      occurrence of the pattern survives a replace-all, not even one formed
      across a replaced occurrence. */
  lemma {:induction false} ReplaceAllRemovesAll(s: string, pat: string, rep: string)
    requires pat != [] && rep != []
    requires NoneOf(rep, pat)
    ensures !Contains(ReplaceAll(s, pat, rep), pat)
    decreases |s|
  {
    var r := ReplaceAll(s, pat, rep);
    if |s| < |pat| {
    } else if s[..|pat|] == pat {
      var r' := ReplaceAll(s[|pat|..], pat, rep);
      ReplaceAllRemovesAll(s[|pat|..], pat, rep);
      assert r == rep + r';
      forall i | 0 <= i <= |r| - |pat| ensures !OccursAt(r, pat, i) {
        if i < |rep| {
          assert r[i] == rep[i];
          assert r[i..i + |pat|][0] == r[i];
        } else {
          OccursAtAfter(rep, r', pat, i);
        }
      }
    } else {
      var r' := ReplaceAll(s[1..], pat, rep);
      ReplaceAllRemovesAll(s[1..], pat, rep);
      assert r == [s[0]] + r';
      forall i | 0 <= i <= |r| - |pat| ensures !OccursAt(r, pat, i) {
        if i == 0 {
          NoneOfSymmetric(rep, pat);
          FirstWindowUntouched(s, pat, rep, pat);
        } else {
          OccursAtTail(s[0], r', pat, i);
        }
      }
    }
  }

  /** A string whose characters avoid the replacement occurs in the result of
      a replace-all only if it already occurred in the input: replacing never
      creates new text out of the surrounding pieces. */
  lemma {:induction false} ReplaceAllKeepsAbsent(s: string, pat: string, rep: string, w: string)
    requires pat != [] && rep != []
    requires NoneOf(w, rep)
    ensures Contains(ReplaceAll(s, pat, rep), w) ==> Contains(s, w)
    decreases |s|
  {
    var r := ReplaceAll(s, pat, rep);
    if |w| == 0 {
      assert OccursAt(s, w, 0);
    } else if |s| < |pat| {
    } else if s[..|pat|] == pat {
      var r' := ReplaceAll(s[|pat|..], pat, rep);
      ReplaceAllKeepsAbsent(s[|pat|..], pat, rep, w);
      assert r == rep + r';
      assert s == pat + s[|pat|..];
      forall i | 0 <= i <= |r| - |w| ensures OccursAt(r, w, i) ==> Contains(s, w) {
        if i < |rep| {
          assert r[i..i + |w|][0] == rep[i];
        } else if OccursAt(r, w, i) {
          OccursAtAfter(rep, r', w, i);
          var j :| 0 <= j <= |s[|pat|..]| - |w| && OccursAt(s[|pat|..], w, j);
          OccursAtAfter(pat, s[|pat|..], w, j + |pat|);
        }
      }
    } else {
      var r' := ReplaceAll(s[1..], pat, rep);
      ReplaceAllKeepsAbsent(s[1..], pat, rep, w);
      assert r == [s[0]] + r';
      forall i | 0 <= i <= |r| - |w| ensures OccursAt(r, w, i) ==> Contains(s, w) {
        if i == 0 {
          FirstWindowUntouched(s, pat, rep, w);
        } else if OccursAt(r, w, i) {
          OccursAtTail(s[0], r', w, i);
          var j :| 0 <= j <= |s[1..]| - |w| && OccursAt(s[1..], w, j);
          assert s == [s[0]] + s[1..];
          OccursAtTail(s[0], s[1..], w, j + 1);
        }
      }
    }
  }

  /** A final character that is not part of the pattern can take part in no
      occurrence, so it passes through a replace-all unchanged. */
  lemma {:induction false} ReplaceAllAppendChar(s: string, c: char, pat: string, rep: string)
    requires pat != [] && c !in pat
    ensures ReplaceAll(s + [c], pat, rep) == ReplaceAll(s, pat, rep) + [c]
    decreases |s|
  {
    var t := s + [c];
    if |t| < |pat| {
    } else if |s| < |pat| {
      assert t[..|pat|][|pat| - 1] == c;
      assert t[..|pat|] != pat;
      if |s| == 0 {
        assert t == [c];
      } else {
        DropThenAppend(s, 1, c);
        ReplaceAllAppendChar(s[1..], c, pat, rep);
        assert s == [s[0]] + s[1..];
      }
    } else {
      assert t[..|pat|] == s[..|pat|];
      if s[..|pat|] == pat {
        DropThenAppend(s, |pat|, c);
        ReplaceAllAppendChar(s[|pat|..], c, pat, rep);
      } else {
        DropThenAppend(s, 1, c);
        ReplaceAllAppendChar(s[1..], c, pat, rep);
      }
    }
  }

  /** `explode` on a one-character separator splits off the text before the
      first separator. */
  lemma {:induction false} SplitAtFirst(a: string, c: char, b: string)
    requires c !in a
    ensures Split(a + [c] + b, [c]) == [a] + Split(b, [c])
    decreases |a|
  {
    var s := a + [c] + b;
    if |a| == 0 {
      assert s == [c] + b;
      assert s[..1] == [c];
      assert s[1..] == b;
    } else {
      assert s[..1] == [a[0]];
      assert s[1..] == a[1..] + [c] + b;
      SplitAtFirst(a[1..], c, b);
      assert [a[0]] + a[1..] == a;
    }
  }

  /** A one-character string occurs exactly where the character does. */
  lemma ContainsChar(s: string, c: char)
    ensures Contains(s, [c]) <==> c in s
  {
    if c in s {
      var i :| 0 <= i < |s| && s[i] == c;
      assert OccursAt(s, [c], i);
    }
    forall i | 0 <= i <= |s| - 1 && OccursAt(s, [c], i) ensures c in s {
      assert s[i..i + 1][0] == s[i];
    }
  }

  /** Text before the first occurrence that holds no first character of the
      pattern is copied, and the occurrence right after it is replaced. */
  lemma {:induction false} ReplaceAllAfterPlainPrefix(a: string, pat: string, rep: string, b: string)
    requires pat != [] && pat[0] !in a
    ensures ReplaceAll(a + pat + b, pat, rep) == a + rep + ReplaceAll(b, pat, rep)
    decreases |a|
  {
    var s := a + pat + b;
    if a == [] {
      assert s == pat + b;
      assert s[..|pat|] == pat && s[|pat|..] == b;
    } else {
      assert s[..|pat|][0] == a[0];
      assert s[..|pat|] != pat;
      assert ReplaceAll(s, pat, rep) == [s[0]] + ReplaceAll(s[1..], pat, rep);
      assert s[1..] == a[1..] + pat + b && s[0] == a[0];
      ReplaceAllAfterPlainPrefix(a[1..], pat, rep, b);
      var r := ReplaceAll(b, pat, rep);
      assert ReplaceAll(s[1..], pat, rep) == a[1..] + rep + r;
      assert [a[0]] + (a[1..] + rep + r) == a + rep + r;
    }
  }

  /** A string holding no first character of the pattern is left unchanged. */
  lemma ReplaceAllWithoutFirstChar(s: string, pat: string, rep: string)
    requires pat != [] && pat[0] !in s
    ensures ReplaceAll(s, pat, rep) == s
  {
    forall i | 0 <= i <= |s| - |pat| ensures !OccursAt(s, pat, i) {
      assert s[i..i + |pat|][0] == s[i];
    }
    ReplaceAllAbsent(s, pat, rep);
  }

  /** When the pattern's last character appears nowhere else in it, a trailing
      occurrence after text without that character is the only one: it is
      replaced and the text before it is copied. */
  lemma {:induction false} ReplaceAllTrailing(x: string, pat: string, rep: string)
    requires pat != []
    requires pat[|pat| - 1] !in x && pat[|pat| - 1] !in pat[..|pat| - 1]
    ensures ReplaceAll(x + pat, pat, rep) == x + rep
    decreases |x|
  {
    var s := x + pat;
    if x == [] {
      assert s == pat;
      assert s[..|pat|] == pat && s[|pat|..] == [];
      assert ReplaceAll(s, pat, rep) == rep + ReplaceAll([], pat, rep);
    } else {
      var c := pat[|pat| - 1];
      if |x| >= |pat| {
        assert s[..|pat|][|pat| - 1] == x[|pat| - 1];
      } else {
        assert s[..|pat|][|pat| - 1] == pat[..|pat| - 1][|pat| - 1 - |x|];
      }
      assert s[..|pat|] != pat;
      assert ReplaceAll(s, pat, rep) == [s[0]] + ReplaceAll(s[1..], pat, rep);
      assert s[1..] == x[1..] + pat;
      ReplaceAllTrailing(x[1..], pat, rep);
      assert x == [x[0]] + x[1..];
    }
  }

  /** `explode` undoes `implode` when no piece holds the one-character
      separator: the pieces come back exactly. */
  lemma {:induction false} SplitJoinRoundTrip(parts: seq<string>, c: char)
    requires |parts| >= 1
    requires forall i | 0 <= i < |parts| :: c !in parts[i]
    ensures Split(Join(parts, [c]), [c]) == parts
    decreases |parts|
  {
    if |parts| == 1 {
      ContainsChar(parts[0], c);
      SplitSingletonIffAbsent(parts[0], [c]);
    } else {
      assert Join(parts, [c]) == parts[0] + [c] + Join(parts[1..], [c]);
      SplitAtFirst(parts[0], c, Join(parts[1..], [c]));
      SplitJoinRoundTrip(parts[1..], c);
      assert parts == [parts[0]] + parts[1..];
    }
  }

  /** The pieces `explode` returns on a one-character separator never hold
      that character. */
  lemma SplitPiecesAvoidChar(s: string, c: char)
    ensures forall i | 0 <= i < |Split(s, [c])| :: c !in Split(s, [c])[i]
  {
    SplitPiecesFree(s, [c]);
    forall i | 0 <= i < |Split(s, [c])| ensures c !in Split(s, [c])[i] {
      ContainsChar(Split(s, [c])[i], c);
    }
  }

  /** `implode` on three pieces. */
  lemma JoinThree(a: string, b: string, c: string, sep: string)
    ensures Join([a, b, c], sep) == a + sep + b + sep + c
  {
    assert [a, b, c][1..] == [b, c] && [b, c][1..] == [c];
    assert Join([b, c], sep) == b + sep + c;
  }

  /** Concatenation regroups freely; stated once so that proofs about
      long computed sequences need not compare them element by element. */
  lemma ConcatAssociative<T>(a: seq<T>, b: seq<T>, c: seq<T>)
    ensures (a + b) + c == a + (b + c)
    ensures a + [] == a
  {
  }

  /** Dropping a prefix of `s` and then appending equals appending first. */
  lemma DropThenAppend<T>(s: seq<T>, n: nat, c: T)
    requires n <= |s|
    ensures (s + [c])[n..] == s[n..] + [c]
  {
  }

  /** Sequences that agree at every index are equal; stated once for the
      same reason. */
  lemma EqualPointwise<T>(a: seq<T>, b: seq<T>)
    requires |a| == |b|
    requires forall i | 0 <= i < |a| :: a[i] == b[i]
    ensures a == b
  {
  }
}
