/**
 * Character and string operations of Python that the model relies on.
 * Case mapping and the alphanumeric test are restricted to ASCII.
 */
module Strings {

  /** `c.lower()` for one ASCII character; every other character is left as it is. */
  function Lower(c: char): char
  {
    if 'A' <= c <= 'Z' then (c as int + 32) as char else c
  }

  /** `s.lower()`: the character-wise lower-case mapping. */
  function LowerStr(s: string): (r: string)
    ensures |r| == |s|
    ensures forall i :: 0 <= i < |s| ==> r[i] == Lower(s[i])
  {
    if s == [] then [] else [Lower(s[0])] + LowerStr(s[1..])
  }

  /** Lower-casing twice is lower-casing once. */
  lemma LowerStrIdempotent(s: string)
    ensures LowerStr(LowerStr(s)) == LowerStr(s)
  {
  }

  /** `c.isalnum()` for ASCII: a letter or a decimal digit. */
  predicate IsAlnum(c: char)
  {
    ('a' <= c <= 'z') || ('A' <= c <= 'Z') || ('0' <= c <= '9')
  }

  /** `needle` occurs in `hay` starting at position `i`. */
  predicate OccursAt(hay: string, needle: string, i: int)
  {
    0 <= i && i + |needle| <= |hay| && hay[i..i + |needle|] == needle
  }

  /** Python's `needle in hay` on strings: a substring test (the empty string occurs everywhere). */
  predicate Contains(hay: string, needle: string)
  {
    exists i | 0 <= i <= |hay| - |needle| :: OccursAt(hay, needle, i)
  }

  /** `sep.join(parts)`. */
  function Join(sep: string, parts: seq<string>): string
  {
    if |parts| == 0 then ""
    else if |parts| == 1 then parts[0]
    else parts[0] + sep + Join(sep, parts[1..])
  }

  /** Joining three parts puts the separator between neighbours only. */
  lemma JoinThree(sep: string, a: string, b: string, c: string)
    ensures Join(sep, [a, b, c]) == a + sep + b + sep + c
  {
    assert [b, c][1..] == [c];
    assert Join(sep, [b, c]) == b + sep + c;
    assert [a, b, c][1..] == [b, c];
  }

  /** A string lacking one of the characters of `needle` does not contain `needle`. */
  lemma MissingCharNotContained(hay: string, needle: string, k: int)
    requires 0 <= k < |needle| && needle[k] !in hay
    ensures !Contains(hay, needle)
  {
    forall i | 0 <= i <= |hay| - |needle| ensures !OccursAt(hay, needle, i) {
      assert hay[i..i + |needle|][k] == hay[i + k];
    }
  }

  /**
   * A piece spliced in twice between fixed strings is found again at two
   * fixed offsets, so the result determines the piece.
   */
  lemma SplicedTwice(head: string, mid: string, tail: string, x: string, y: string)
    ensures var s := head + x + mid + x + tail;
      var second := |head| + |x| + |mid|;
      |s| == |head| + |mid| + |tail| + 2 * |x| &&
      s[|head|..|head| + |x|] == x && s[second..second + |x|] == x
    ensures head + x + mid + x + tail == head + y + mid + y + tail ==> x == y
  {
    var s := head + x + mid + x + tail;
    assert s[|head|..|head| + |x|] == x;
    var second := |head| + |x| + |mid|;
    assert s[second..second + |x|] == x;
    var t := head + y + mid + y + tail;
    if s == t {
      assert |x| == |y|;
      assert t[|head|..|head| + |y|] == y;
    }
  }

  /** `s.split(sep)` for a one-character separator: the pieces between the separators, empty ones included. */
  function Split(s: string, sep: char): (pieces: seq<string>)
    ensures |pieces| >= 1
    ensures forall k :: 0 <= k < |pieces| ==> sep !in pieces[k]
  {
    if s == [] then [""]
    else
      var rest := Split(s[1..], sep);
      if s[0] == sep then [""] + rest else [[s[0]] + rest[0]] + rest[1..]
  }

  /** Splitting a string free of the separator in front of `t` glues the string to the first piece of `t`. */
  lemma {:induction false} SplitAfterPlainPrefix(x: string, t: string, sep: char)
    requires sep !in x
    ensures Split(x + t, sep) == [x + Split(t, sep)[0]] + Split(t, sep)[1..]
  {
    if x != [] {
      var pieces := Split(t, sep);
      assert (x + t)[0] == x[0] && (x + t)[1..] == x[1..] + t;
      assert x[0] != sep;
      SplitAfterPlainPrefix(x[1..], t, sep);
      var rest := Split(x[1..] + t, sep);
      assert rest == [x[1..] + pieces[0]] + pieces[1..];
      assert rest[0] == x[1..] + pieces[0] && rest[1..] == pieces[1..];
      assert Split(x + t, sep) == [[x[0]] + rest[0]] + rest[1..];
      assert [x[0]] + (x[1..] + pieces[0]) == x + pieces[0];
    } else {
      var pieces := Split(t, sep);
      assert x + t == t && x + pieces[0] == pieces[0];
      assert [pieces[0]] + pieces[1..] == pieces;
    }
  }

  /** Joining the pieces of a split with the separator gives back the string. */
  lemma {:induction false} JoinSplit(s: string, sep: char)
    ensures Join([sep], Split(s, sep)) == s
  {
    if s != [] {
      var rest := Split(s[1..], sep);
      JoinSplit(s[1..], sep);
      if s[0] == sep {
        assert Split(s, sep) == [""] + rest;
        assert ([""] + rest)[1..] == rest;
        assert Join([sep], Split(s, sep)) == "" + [sep] + Join([sep], rest);
        assert s == [s[0]] + s[1..];
      } else {
        var pieces := [[s[0]] + rest[0]] + rest[1..];
        assert pieces[1..] == rest[1..];
        if |rest| == 1 {
          assert Join([sep], pieces) == [s[0]] + rest[0];
          assert Join([sep], rest) == rest[0];
        } else {
          assert Join([sep], pieces) == [s[0]] + rest[0] + [sep] + Join([sep], rest[1..]);
          assert Join([sep], rest) == rest[0] + [sep] + Join([sep], rest[1..]);
        }
        assert s == [s[0]] + s[1..];
      }
    }
  }

  /** Splitting the join of separator-free pieces gives back the pieces. */
  lemma {:induction false} SplitJoin(pieces: seq<string>, sep: char)
    requires |pieces| >= 1
    requires forall k :: 0 <= k < |pieces| ==> sep !in pieces[k]
    ensures Split(Join([sep], pieces), sep) == pieces
  {
    if |pieces| == 1 {
      SplitAfterPlainPrefix(pieces[0], "", sep);
      assert pieces[0] + "" == pieces[0];
    } else {
      var tail := Join([sep], pieces[1..]);
      SplitJoin(pieces[1..], sep);
      assert Join([sep], pieces) == pieces[0] + [sep] + tail;
      assert pieces[0] + [sep] + tail == pieces[0] + ([sep] + tail);
      SplitAfterPlainPrefix(pieces[0], [sep] + tail, sep);
      assert ([sep] + tail)[0] == sep && ([sep] + tail)[1..] == tail;
      var after := Split([sep] + tail, sep);
      assert after == [""] + pieces[1..];
      assert after[0] == "" && after[1..] == pieces[1..];
      assert pieces[0] + after[0] == pieces[0];
      assert pieces == [pieces[0]] + pieces[1..];
    }
  }

  /** A string of `n` copies of `c`: Python's `c * n`. */
  function Repeat(c: char, n: nat): (r: string)
    ensures |r| == n
    ensures forall i :: 0 <= i < n ==> r[i] == c
  {
    if n == 0 then "" else Repeat(c, n - 1) + [c]
  }
}
