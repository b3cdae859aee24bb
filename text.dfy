/** String primitives the retriever and the prompt builder rely on:
    `toLowerCase` (restricted to ASCII), `split` on a one-character
    separator, `join`, and `includes`. */
module Text {

  predicate IsUpper(c: char) {
    'A' <= c <= 'Z'
  }

  /** ASCII lower-casing of one character. */
  function LowerChar(c: char): char {
    if IsUpper(c) then (c as int + 32) as char else c
  }

  /** `s.toLowerCase()` on the ASCII range: upper-case letters move up by 32
      code points ('A', 65, becomes 'a', 97), every other character is kept. */
  function Lower(s: string): (r: string)
    ensures |r| == |s|
    ensures forall i :: 0 <= i < |s| && IsUpper(s[i]) ==> r[i] as int == s[i] as int + 32
    ensures forall i :: 0 <= i < |s| && !IsUpper(s[i]) ==> r[i] == s[i]
    ensures forall i :: 0 <= i < |r| ==> !IsUpper(r[i])
  {
    seq(|s|, i requires 0 <= i < |s| => LowerChar(s[i]))
  }

  /** Lower-casing works character by character, so it commutes with
      slicing. */
  lemma LowerSlice(s: string, i: nat, j: nat)
    requires i <= j <= |s|
    ensures Lower(s)[i..j] == Lower(s[i..j])
  {
  }

  lemma LowerIdempotent(s: string)
    ensures Lower(Lower(s)) == Lower(s)
  {
  }

  /** `a.includes(b)`: `t` occurs in `s` at some offset. A prefix, the
      empty string in particular, is always contained, and nothing longer
      than `s` is. */
  predicate Contains(s: string, t: string): (b: bool)
    ensures t <= s ==> b
    ensures b ==> |t| <= |s|
    decreases |s|
  {
    t <= s || (|s| > 0 && Contains(s[1..], t))
  }

  /** `t` occurs in `s` starting at offset `i`. */
  predicate OccursAt(s: string, t: string, i: nat) {
    i + |t| <= |s| && s[i..i + |t|] == t
  }

  /** The recursive `Contains` agrees with the definition by offsets. */
  lemma {:induction false} ContainsIffOccurs(s: string, t: string)
    ensures Contains(s, t) <==> exists i: nat :: OccursAt(s, t, i)
    decreases |s|
  {
    if t <= s {
      assert OccursAt(s, t, 0);
    } else if |s| > 0 {
      ContainsIffOccurs(s[1..], t);
      if Contains(s[1..], t) {
        var i: nat :| OccursAt(s[1..], t, i);
        DropSlice(s, i + 1, |t|);
        assert OccursAt(s, t, i + 1);
      }
      forall i: nat | OccursAt(s, t, i) && i > 0
        ensures OccursAt(s[1..], t, i - 1)
      {
        DropSlice(s, i, |t|);
      }
    }
  }

  /** Slicing after dropping the first character is slicing one further on. */
  lemma DropSlice(s: string, i: nat, n: nat)
    requires 1 <= i && i + n <= |s|
    ensures s[i..i + n] == s[1..][i - 1..i - 1 + n]
  {
    var a, b := s[i..i + n], s[1..][i - 1..i - 1 + n];
    forall k | 0 <= k < n
      ensures a[k] == b[k]
    {
      assert a[k] == s[i + k];
      assert b[k] == s[1..][i - 1 + k];
    }
  }

  /** A witness offset is enough to establish `Contains`. */
  lemma ContainsAt(s: string, t: string, i: nat)
    requires OccursAt(s, t, i)
    ensures Contains(s, t)
  {
    ContainsIffOccurs(s, t);
  }

  /** Occurrence is transitive: what occurs in a part occurs in the whole. */
  lemma ContainsTrans(a: string, b: string, c: string)
    requires Contains(a, b) && Contains(b, c)
    ensures Contains(a, c)
  {
    ContainsIffOccurs(a, b);
    ContainsIffOccurs(b, c);
    var i: nat :| OccursAt(a, b, i);
    var j: nat :| OccursAt(b, c, j);
    assert b == a[i..i + |b|];
    forall k | 0 <= k < |c|
      ensures a[i + j + k] == c[k]
    {
      assert c[k] == b[j + k] == a[i + j + k];
    }
    assert a[i + j..i + j + |c|] == c;
    ContainsAt(a, c, i + j);
  }

  /** What occurs in either half of a concatenation occurs in the whole. */
  lemma ContainsAppend(a: string, b: string, t: string)
    requires Contains(a, t) || Contains(b, t)
    ensures Contains(a + b, t)
  {
    if Contains(a, t) {
      assert OccursAt(a + b, a, 0);
      ContainsAt(a + b, a, 0);
      ContainsTrans(a + b, a, t);
    } else {
      assert (a + b)[|a|..|a| + |b|] == b;
      ContainsAt(a + b, b, |a|);
      ContainsTrans(a + b, b, t);
    }
  }

  /** A lower-cased occurrence: if `u` occurs in `s` at `i`, its lower-cased
      form occurs in `Lower(s)`. */
  lemma LowerContains(s: string, u: string, i: nat)
    requires OccursAt(s, u, i)
    ensures Contains(Lower(s), Lower(u))
  {
    LowerSlice(s, i, i + |u|);
    ContainsAt(Lower(s), Lower(u), i);
  }

  /** Lower-casing distributes over concatenation. */
  lemma LowerAppend(a: string, b: string)
    ensures Lower(a + b) == Lower(a) + Lower(b)
  {
  }

  /** `xs.join(sep)`: n >= 1 parts are joined with exactly n - 1
      separators. */
  function Join(parts: seq<string>, sep: string): (r: string)
    ensures |parts| >= 1 ==> |r| == TotalLength(parts) + |sep| * (|parts| - 1)
  {
    if |parts| == 0 then ""
    else if |parts| == 1 then parts[0]
    else parts[0] + sep + Join(parts[1..], sep)
  }

  function TotalLength(parts: seq<string>): nat {
    if |parts| == 0 then 0 else |parts[0]| + TotalLength(parts[1..])
  }

  /** Every part occurs in the joined string. */
  lemma {:induction false} JoinContainsParts(parts: seq<string>, sep: string, k: nat)
    requires k < |parts|
    ensures Contains(Join(parts, sep), parts[k])
  {
    var r := Join(parts, sep);
    if |parts| == 1 {
      assert OccursAt(r, parts[0], 0);
      ContainsAt(r, parts[0], 0);
    } else if k == 0 {
      assert r[0..|parts[0]|] == parts[0];
      assert OccursAt(r, parts[0], 0);
      ContainsAt(r, parts[0], 0);
    } else {
      JoinContainsParts(parts[1..], sep, k - 1);
      var rest := Join(parts[1..], sep);
      ContainsIffOccurs(rest, parts[k]);
      var i: nat :| OccursAt(rest, parts[k], i);
      var off := |parts[0]| + |sep|;
      assert r == parts[0] + sep + rest;
      assert r[off + i..off + i + |parts[k]|] == rest[i..i + |parts[k]|];
      ContainsAt(r, parts[k], off + i);
    }
  }

  /** Every part, at every position, occurs in the joined string. */
  lemma JoinContainsAll(parts: seq<string>, sep: string)
    ensures forall k :: 0 <= k < |parts| ==> Contains(Join(parts, sep), parts[k])
  {
    forall k | 0 <= k < |parts|
      ensures Contains(Join(parts, sep), parts[k])
    {
      JoinContainsParts(parts, sep, k);
    }
  }

  /** `s.split(sep)` for a one-character separator: the maximal pieces
      between separators, in order, with empty pieces kept. */
  function Split(s: string, sep: char): (parts: seq<string>)
    ensures |parts| >= 1
    ensures forall k :: 0 <= k < |parts| ==> sep !in parts[k]
    decreases |s|
  {
    if |s| == 0 then [""]
    else
      var rest := Split(s[1..], sep);
      if s[0] == sep then [""] + rest
      else [[s[0]] + rest[0]] + rest[1..]
  }

  /** A piece without the separator splits into itself. */
  lemma {:induction false} SplitWord(w: string, sep: char)
    requires sep !in w
    ensures Split(w, sep) == [w]
  {
    if |w| > 0 {
      SplitWord(w[1..], sep);
      assert w == [w[0]] + w[1..];
    }
  }

  /** A leading piece followed by a separator splits off on its own. */
  lemma {:induction false} SplitFirstWord(w: string, rest: string, sep: char)
    requires sep !in w
    ensures Split(w + [sep] + rest, sep) == [w] + Split(rest, sep)
  {
    var s := w + [sep] + rest;
    if |w| == 0 {
      assert s == [sep] + rest;
      assert s[1..] == rest;
    } else {
      SplitFirstWord(w[1..], rest, sep);
      assert s[0] == w[0];
      assert s[1..] == w[1..] + [sep] + rest;
      assert w == [w[0]] + w[1..];
    }
  }

  /** Three separator-free words joined by two separators split back into
      those words. */
  lemma {:induction false} SplitThree(a: string, b: string, c: string, sep: char)
    requires sep !in a && sep !in b && sep !in c
    ensures Split(a + [sep] + b + [sep] + c, sep) == [a, b, c]
  {
    SplitWord(c, sep);
    SplitFirstWord(b, c, sep);
    SplitFirstWord(a, b + [sep] + c, sep);
    assert a + [sep] + b + [sep] + c == a + [sep] + (b + [sep] + c);
  }

  /** Splitting and joining back with the same separator is the identity. */
  lemma {:induction false} SplitJoin(s: string, sep: char)
    ensures Join(Split(s, sep), [sep]) == s
    decreases |s|
  {
    if |s| > 0 {
      var rest := Split(s[1..], sep);
      SplitJoin(s[1..], sep);
      if s[0] == sep {
        assert Split(s, sep) == [""] + rest;
        assert ([""] + rest)[1..] == rest;
      } else {
        var parts := Split(s, sep);
        assert parts == [[s[0]] + rest[0]] + rest[1..];
        if |rest| == 1 {
          assert parts == [[s[0]] + rest[0]];
        } else {
          assert parts[1..] == rest[1..];
          assert Join(rest, [sep]) == rest[0] + [sep] + Join(rest[1..], [sep]);
        }
      }
    }
  }

  function Occurrences(s: string, c: char): nat {
    if |s| == 0 then 0 else (if s[0] == c then 1 else 0) + Occurrences(s[1..], c)
  }

  /** One more piece than there are separators. */
  lemma {:induction false} SplitCount(s: string, sep: char)
    ensures |Split(s, sep)| == Occurrences(s, sep) + 1
    decreases |s|
  {
    if |s| > 0 {
      SplitCount(s[1..], sep);
    }
  }

  predicate HasDoubleSep(s: string, sep: char) {
    exists i :: 0 <= i < |s| - 1 && s[i] == sep && s[i + 1] == sep
  }

  /** Where `split` produces an empty piece: an empty string, a leading or
      trailing separator, or two separators in a row. */
  predicate HasEmptyPiece(s: string, sep: char) {
    |s| == 0 || s[0] == sep || s[|s| - 1] == sep || HasDoubleSep(s, sep)
  }

  lemma DoubleSepTail(s: string, sep: char)
    requires |s| > 0
    ensures HasDoubleSep(s, sep) <==>
              (|s| >= 2 && s[0] == sep && s[1] == sep) || HasDoubleSep(s[1..], sep)
  {
    if HasDoubleSep(s, sep) {
      var i :| 0 <= i < |s| - 1 && s[i] == sep && s[i + 1] == sep;
      if i > 0 {
        assert s[1..][i - 1] == sep && s[1..][i] == sep;
      }
    }
    if HasDoubleSep(s[1..], sep) {
      var i :| 0 <= i < |s[1..]| - 1 && s[1..][i] == sep && s[1..][i + 1] == sep;
      assert s[i + 1] == sep && s[i + 2] == sep;
    }
  }

  lemma {:induction false} EmptyLaterPiece(s: string, sep: char)
    ensures "" in Split(s, sep)[1..] <==>
              (|s| > 0 && s[|s| - 1] == sep) || HasDoubleSep(s, sep)
    decreases |s|
  {
    if |s| > 0 {
      var t := s[1..];
      var rest := Split(t, sep);
      EmptyLaterPiece(t, sep);
      DoubleSepTail(s, sep);
      assert rest == [rest[0]] + rest[1..];
      assert rest[0] == "" <==> |t| == 0 || t[0] == sep;
      if s[0] == sep {
        assert Split(s, sep)[1..] == rest;
      } else {
        assert Split(s, sep)[1..] == rest[1..];
      }
    }
  }

  /** `split` yields an empty piece exactly in the cases of `HasEmptyPiece`. */
  lemma EmptyPieceIff(s: string, sep: char)
    ensures "" in Split(s, sep) <==> HasEmptyPiece(s, sep)
  {
    var parts := Split(s, sep);
    EmptyLaterPiece(s, sep);
    assert parts == [parts[0]] + parts[1..];
    assert parts[0] == "" <==> |s| == 0 || s[0] == sep;
  }
}
