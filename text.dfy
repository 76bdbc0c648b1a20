/** The Python string operations the dashboard relies on, on strings of Unicode scalar values. */
module Text {

  // ---------------------------------------------------------------- str.lower

  /**
   * The lower-case form of one character, as far as it can matter to a search for an
   * ASCII keyword: A-Z become a-z, and the only two other characters whose lower-case
   * form contains ASCII letters are mapped as Python maps them (U+0130 to "i" followed by
   * U+0307, the Kelvin sign U+212A to "k"). Every other character is kept as it is.
   */
  function LowerChar(c: char): (r: string)
    ensures 1 <= |r| <= 2
  {
    if 'A' <= c <= 'Z' then [(c as int + 32) as char]
    else if c == '\U{130}' then ['i', '\U{307}']
    else if c == '\U{212A}' then ['k']
    else [c]
  }

  /** `s.lower()`, character by character: never shorter, at most twice as long. */
  function Lower(s: string): (r: string)
    ensures |s| <= |r| <= 2 * |s|
  {
    if s == [] then [] else LowerChar(s[0]) + Lower(s[1..])
  }

  lemma {:induction false} LowerAppend(a: string, b: string)
    ensures Lower(a + b) == Lower(a) + Lower(b)
    decreases |a|
  {
    if a == [] {
      assert a + b == b;
    } else {
      assert (a + b)[0] == a[0] && (a + b)[1..] == a[1..] + b;
      LowerAppend(a[1..], b);
      calc {
        Lower(a + b);
        LowerChar(a[0]) + Lower(a[1..] + b);
        LowerChar(a[0]) + (Lower(a[1..]) + Lower(b));
        (LowerChar(a[0]) + Lower(a[1..])) + Lower(b);
      }
    }
  }

  /** `s.lower()` is empty exactly when `s` is. */
  lemma LowerEmpty(s: string)
    ensures Lower(s) == [] <==> s == []
  {
  }

  /** Lower-casing leaves no ASCII capital behind. */
  lemma {:induction false} LowerHasNoCapitals(s: string)
    ensures forall i :: 0 <= i < |Lower(s)| ==> !('A' <= Lower(s)[i] <= 'Z')
    decreases |s|
  {
    if s != [] {
      LowerHasNoCapitals(s[1..]);
    }
  }

  /** The lower-case form of a character is its own lower-case form. */
  lemma LowerCharStable(c: char)
    ensures Lower(LowerChar(c)) == LowerChar(c)
  {
    var l := LowerChar(c);
    if |l| == 2 {
      assert l == ['i'] + ['\U{307}'];
      LowerAppend(['i'], ['\U{307}']);
    }
  }

  /** Lower-casing twice is lower-casing once. */
  lemma {:induction false} LowerIdempotent(s: string)
    ensures Lower(Lower(s)) == Lower(s)
    decreases |s|
  {
    if s != [] {
      var l := LowerChar(s[0]);
      LowerAppend(l, Lower(s[1..]));
      LowerIdempotent(s[1..]);
      LowerCharStable(s[0]);
    }
  }

  // ---------------------------------------------------------------- the `in` operator on strings

  /** `k` occurs in `t` starting at index `i`. */
  ghost predicate OccursAt(k: string, t: string, i: int)
  {
    0 <= i && i + |k| <= |t| && t[i..i + |k|] == k
  }

  /** `k` is a prefix of `t`. */
  predicate IsPrefix(k: string, t: string)
  {
    |k| <= |t| && t[..|k|] == k
  }

  /** `k in t` for two strings: is `k` a substring of `t`? */
  predicate Contains(k: string, t: string)
    decreases |t|
  {
    IsPrefix(k, t) || (t != [] && Contains(k, t[1..]))
  }

  /** A keyword with a character the text lacks does not occur in it. */
  lemma {:induction false} MissingCharNotContained(k: string, t: string, c: char)
    requires c in k && c !in t
    ensures !Contains(k, t)
    decreases |t|
  {
    if t != [] {
      assert forall x :: x in t[1..] ==> x in t;
      MissingCharNotContained(k, t[1..], c);
    }
  }

  lemma OccursShift(k: string, t: string, i: int)
    requires t != [] && i >= 1
    ensures OccursAt(k, t, i) <==> OccursAt(k, t[1..], i - 1)
  {
    if i + |k| <= |t| {
      assert t[1..][i - 1..i - 1 + |k|] == t[i..i + |k|];
    }
  }

  /** `Contains` agrees with the definition of a substring: an occurrence at some offset. */
  lemma {:induction false} ContainsIff(k: string, t: string)
    ensures Contains(k, t) <==> exists i :: OccursAt(k, t, i)
    decreases |t|
  {
    if IsPrefix(k, t) {
      assert OccursAt(k, t, 0);
    } else if t == [] {
      assert forall i :: !OccursAt(k, t, i);
    } else {
      ContainsIff(k, t[1..]);
      if Contains(k, t[1..]) {
        var i :| OccursAt(k, t[1..], i);
        OccursShift(k, t, i + 1);
      } else {
        forall i | 0 <= i
          ensures !OccursAt(k, t, i)
        {
          if i >= 1 {
            OccursShift(k, t, i);
          }
        }
      }
    }
  }

  // ---------------------------------------------------------------- str.split(sep)

  /**
   * `s.split(sep)` for a one-character separator: the pieces between the separators,
   * at least one, empty pieces included ("" gives [""]).
   */
  function Split(s: string, sep: char): (parts: seq<string>)
    ensures |parts| >= 1
    decreases |s|
  {
    if s == [] then [""]
    else if s[0] == sep then [""] + Split(s[1..], sep)
    else
      var rest := Split(s[1..], sep);
      [[s[0]] + rest[0]] + rest[1..]
  }

  /** A string without the separator is one piece. */
  lemma {:induction false} SplitNoSeparator(s: string, sep: char)
    requires sep !in s
    ensures Split(s, sep) == [s]
    decreases |s|
  {
    if s != [] {
      assert s[0] != sep;
      SplitNoSeparator(s[1..], sep);
      assert [s[0]] + s[1..] == s;
    }
  }

  /** Splitting at a separator splits each side on its own. */
  lemma {:induction false} SplitAt(a: string, sep: char, b: string)
    ensures Split(a + [sep] + b, sep) == Split(a, sep) + Split(b, sep)
    decreases |a|
  {
    if a == [] {
      assert a + [sep] + b == [sep] + b;
      assert ([sep] + b)[1..] == b;
    } else {
      assert (a + [sep] + b)[1..] == a[1..] + [sep] + b;
      SplitAt(a[1..], sep, b);
    }
  }

  /** `sep.join(parts)`. */
  function Join(parts: seq<string>, sep: char): string
    requires |parts| >= 1
  {
    if |parts| == 1 then parts[0] else parts[0] + [sep] + Join(parts[1..], sep)
  }

  /** Joining the pieces with the separator gives back the string. */
  lemma {:induction false} SplitJoin(s: string, sep: char)
    ensures Join(Split(s, sep), sep) == s
    decreases |s|
  {
    if s != [] {
      SplitJoin(s[1..], sep);
      var rest := Split(s[1..], sep);
      if s[0] != sep && |rest| > 1 {
        assert Split(s, sep)[1..] == rest[1..];
      }
    }
  }

  /** No piece contains the separator. */
  lemma {:induction false} SplitPiecesHaveNoSeparator(s: string, sep: char)
    ensures forall p :: p in Split(s, sep) ==> sep !in p
    decreases |s|
  {
    if s != [] {
      SplitPiecesHaveNoSeparator(s[1..], sep);
      var rest := Split(s[1..], sep);
      if s[0] != sep {
        assert forall p :: p in rest[1..] ==> p in rest;
      }
    }
  }

  // ---------------------------------------------------------------- str.strip()

  /** Python's `str.isspace()` on one character: the characters `strip()` removes. */
  predicate IsSpace(c: char)
  {
    || '\t' <= c <= '\r'
    || '\U{1C}' <= c <= '\U{1F}'
    || c == ' '
    || c == '\U{85}'
    || c == '\U{A0}'
    || c == '\U{1680}'
    || '\U{2000}' <= c <= '\U{200A}'
    || c == '\U{2028}'
    || c == '\U{2029}'
    || c == '\U{202F}'
    || c == '\U{205F}'
    || c == '\U{3000}'
  }

  ghost predicate AllSpace(s: string)
  {
    forall i :: 0 <= i < |s| ==> IsSpace(s[i])
  }

  /** Neither end of `s` is white space. */
  ghost predicate Trimmed(s: string)
  {
    s == [] || (!IsSpace(s[0]) && !IsSpace(s[|s| - 1]))
  }

  /** How many white-space characters `s` starts with. */
  function LeadingSpace(s: string): (n: nat)
    ensures n <= |s| && AllSpace(s[..n])
    ensures n < |s| ==> !IsSpace(s[n])
    decreases |s|
  {
    if s != [] && IsSpace(s[0]) then
      var n := LeadingSpace(s[1..]);
      n + 1
    else 0
  }

  /** How many white-space characters `s` ends with. */
  function TrailingSpace(s: string): (n: nat)
    ensures n <= |s| && AllSpace(s[|s| - n..])
    ensures n < |s| ==> !IsSpace(s[|s| - 1 - n])
    decreases |s|
  {
    if s != [] && IsSpace(s[|s| - 1]) then
      var p := s[..|s| - 1];
      var n := TrailingSpace(p);
      assert s[|s| - (n + 1)..] == p[|p| - n..] + [s[|s| - 1]];
      n + 1
    else 0
  }

  /**
   * `s.strip()`: the leading white space cut off, then the trailing white space; what is
   * left is a piece of `s` with neither end white space.
   */
  function Strip(s: string): (r: string)
    ensures Trimmed(r)
    ensures forall c :: c in r ==> c in s
  {
    var t := s[LeadingSpace(s)..];
    var r := t[..|t| - TrailingSpace(t)];
    assert r != [] ==> r[0] == t[0] && r[|r| - 1] == t[|t| - 1 - TrailingSpace(t)];
    r
  }

  lemma StripAllSpace(s: string)
    requires AllSpace(s)
    ensures Strip(s) == []
  {
  }

  lemma {:induction false} LeadingSpacePadded(front: string, rest: string)
    requires AllSpace(front) && (rest == [] || !IsSpace(rest[0]))
    ensures LeadingSpace(front + rest) == |front|
    decreases |front|
  {
    if front == [] {
      assert front + rest == rest;
    } else {
      assert (front + rest)[0] == front[0] && (front + rest)[1..] == front[1..] + rest;
      LeadingSpacePadded(front[1..], rest);
    }
  }

  lemma {:induction false} TrailingSpacePadded(rest: string, back: string)
    requires AllSpace(back) && (rest == [] || !IsSpace(rest[|rest| - 1]))
    ensures TrailingSpace(rest + back) == |back|
    decreases |back|
  {
    if back == [] {
      assert rest + back == rest;
    } else {
      var s := rest + back;
      assert s[|s| - 1] == back[|back| - 1] && s[..|s| - 1] == rest + back[..|back| - 1];
      TrailingSpacePadded(rest, back[..|back| - 1]);
    }
  }

  /** White space around a trimmed middle is exactly what `strip` removes. */
  lemma StripPadded(front: string, middle: string, back: string)
    requires AllSpace(front) && Trimmed(middle) && AllSpace(back)
    ensures Strip(front + middle + back) == middle
  {
    var s := front + middle + back;
    if middle == [] {
      assert AllSpace(s) by {
        assert forall i :: 0 <= i < |s| ==> s[i] == if i < |front| then front[i] else back[i - |front|];
      }
      StripAllSpace(s);
    } else {
      assert s == front + (middle + back);
      LeadingSpacePadded(front, middle + back);
      var t := s[|front|..];
      assert t == middle + back;
      TrailingSpacePadded(middle, back);
      assert t[..|t| - |back|] == middle;
    }
  }

  // ---------------------------------------------------------------- str.replace(c, "")

  /** `s.replace(c, "")`: every occurrence of `c` deleted, the rest in order. */
  function Remove(s: string, c: char): (r: string)
    ensures c !in r
    ensures |r| <= |s|
    ensures forall x :: x in r ==> x in s
    decreases |s|
  {
    if s == [] then []
    else if s[0] == c then Remove(s[1..], c)
    else [s[0]] + Remove(s[1..], c)
  }

  /** Deleting a character that does not occur changes nothing. */
  lemma {:induction false} RemoveAbsent(s: string, c: char)
    requires c !in s
    ensures Remove(s, c) == s
    decreases |s|
  {
    if s != [] {
      RemoveAbsent(s[1..], c);
    }
  }

  lemma {:induction false} RemoveAppend(a: string, b: string, c: char)
    ensures Remove(a + b, c) == Remove(a, c) + Remove(b, c)
    decreases |a|
  {
    if a == [] {
      assert a + b == b;
    } else {
      assert (a + b)[0] == a[0] && (a + b)[1..] == a[1..] + b;
      RemoveAppend(a[1..], b, c);
      if a[0] != c {
        calc {
          Remove(a + b, c);
          [a[0]] + Remove(a[1..] + b, c);
          [a[0]] + (Remove(a[1..], c) + Remove(b, c));
          ([a[0]] + Remove(a[1..], c)) + Remove(b, c);
        }
      }
    }
  }
}
