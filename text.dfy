/**
 * The string operations the cleaning rules apply to field text, with Python's `str` semantics:
 * `upper`, `strip`, `split('-')[-1]`, `replace`, `endswith` and substring search.
 */
module Text {

  /** Python's `str.isspace` for one character (the whitespace `strip()` and `float()` remove). */
  predicate IsSpace(c: char)
  {
    var n := c as int;
    (9 <= n <= 13) || (0x1C <= n <= 0x20) || n == 0x85 || n == 0xA0 || n == 0x1680
    || (0x2000 <= n <= 0x200A) || n == 0x2028 || n == 0x2029 || n == 0x202F || n == 0x205F
    || n == 0x3000
  }

  /** Upper-case mapping of one character: ASCII and the Latin-1 letters that map to one character. */
  function UpperChar(c: char): char
  {
    var n := c as int;
    if 'a' <= c <= 'z' || (0xE0 <= n <= 0xFE && n != 0xF7) then (n - 32) as char
    else if n == 0xFF then 0x178 as char
    else if n == 0xB5 then 0x39C as char
    else c
  }

  /**
   * Python's `str.upper` on ASCII and Latin-1 text, character by character. Other scripts, and
   * letters such as `ß` whose upper case is two characters, are left as they are.
   */
  function Upper(s: string): (r: string)
    ensures |r| == |s|
    ensures forall i :: 0 <= i < |s| ==> r[i] == UpperChar(s[i])
  {
    seq(|s|, i requires 0 <= i < |s| => UpperChar(s[i]))
  }

  /** Upper-casing is idempotent: an upper-cased text is its own upper case. */
  lemma UpperIdempotent(s: string)
    ensures Upper(Upper(s)) == Upper(s)
  {
    var u := Upper(s);
    forall i | 0 <= i < |u| ensures UpperChar(u[i]) == u[i] {
      var c := s[i];
      var n := c as int;
      if 'a' <= c <= 'z' || (0xE0 <= n <= 0xFE && n != 0xF7) {
        assert u[i] as int == n - 32;
      }
    }
  }

  /** Drops leading whitespace. */
  function StripStart(s: string): (r: string)
    ensures |r| <= |s| && r == s[|s| - |r|..]
    ensures r == [] || !IsSpace(r[0])
    ensures forall i :: 0 <= i < |s| - |r| ==> IsSpace(s[i])
  {
    if s != [] && IsSpace(s[0]) then StripStart(s[1..]) else s
  }

  /** Drops trailing whitespace. */
  function StripEnd(s: string): (r: string)
    ensures |r| <= |s| && r == s[..|r|]
    ensures r == [] || !IsSpace(r[|r| - 1])
    ensures forall i :: |r| <= i < |s| ==> IsSpace(s[i])
  {
    if s != [] && IsSpace(s[|s| - 1]) then StripEnd(s[..|s| - 1]) else s
  }

  /** `r` is the slice of `s` at offset `a`, and everything around it is whitespace. */
  predicate TrimOf(r: string, s: string, a: nat)
  {
    && a + |r| <= |s| && r == s[a..a + |r|]
    && (forall i :: 0 <= i < a ==> IsSpace(s[i]))
    && (forall i :: a + |r| <= i < |s| ==> IsSpace(s[i]))
  }

  /** Python's `str.strip()`: the slice of `s` left after removing whitespace at both ends. */
  function Strip(s: string): (r: string)
    ensures exists a: nat :: TrimOf(r, s, a)
    ensures r == [] || (!IsSpace(r[0]) && !IsSpace(r[|r| - 1]))
  {
    var t := StripStart(s);
    var r := StripEnd(t);
    assert TrimOf(r, s, |s| - |t|);
    r
  }

  /** A text without whitespace at its ends is unchanged by `Strip`. */
  lemma StripTrimmed(s: string)
    requires s == [] || (!IsSpace(s[0]) && !IsSpace(s[|s| - 1]))
    ensures Strip(s) == s
  {
  }

  /** `s.split('-')[-1]`: the text after the last hyphen, or all of `s` when it has none. */
  function LastSegment(s: string): (r: string)
    ensures '-' !in r
    ensures |r| <= |s| && s[|s| - |r|..] == r
    ensures |r| == |s| || s[|s| - |r| - 1] == '-'
  {
    if s == [] then []
    else if s[|s| - 1] == '-' then []
    else
      var r' := LastSegment(s[..|s| - 1]);
      assert s[..|s| - 1][|s| - 1 - |r'|..] == r';
      r' + [s[|s| - 1]]
  }

  /** The last segment is the only hyphen-free suffix that is the whole text or follows a hyphen. */
  lemma {:induction false} LastSegmentUnique(s: string, r: string)
    requires '-' !in r && |r| <= |s| && s[|s| - |r|..] == r
    requires |r| == |s| || s[|s| - |r| - 1] == '-'
    ensures LastSegment(s) == r
  {
  }

  /** `p` occurs in `s` starting at position `i`. */
  predicate OccursAt(s: string, p: string, i: nat)
  {
    i + |p| <= |s| && s[i..i + |p|] == p
  }

  /** `p in s`: `p` occurs somewhere in `s`. */
  predicate Contains(s: string, p: string)
    decreases |s|
  {
    p <= s || (s != [] && Contains(s[1..], p))
  }

  /** An occurrence at any position makes `Contains` hold. */
  lemma {:induction false} OccursContains(s: string, p: string, i: nat)
    requires OccursAt(s, p, i)
    ensures Contains(s, p)
    decreases i
  {
    if i == 0 {
      assert s[..|p|] == p;
    } else {
      assert OccursAt(s[1..], p, i - 1) by {
        assert s[1..][i - 1..i - 1 + |p|] == s[i..i + |p|];
      }
      OccursContains(s[1..], p, i - 1);
    }
  }

  /** `Contains` finds an occurrence. */
  lemma {:induction false} ContainsOccurs(s: string, p: string)
    requires Contains(s, p)
    ensures exists i: nat :: OccursAt(s, p, i)
    decreases |s|
  {
    if p <= s {
      assert OccursAt(s, p, 0);
    } else {
      ContainsOccurs(s[1..], p);
      var i: nat :| OccursAt(s[1..], p, i);
      assert s[i + 1..i + 1 + |p|] == s[1..][i..i + |p|];
      assert OccursAt(s, p, i + 1);
    }
  }

  lemma ContainsIffOccurs(s: string, p: string)
    ensures Contains(s, p) <==> exists i: nat :: OccursAt(s, p, i)
  {
    if Contains(s, p) {
      ContainsOccurs(s, p);
    }
    if exists i: nat :: OccursAt(s, p, i) {
      var i: nat :| OccursAt(s, p, i);
      OccursContains(s, p, i);
    }
  }

  /** `s.endswith(suffix)`. */
  predicate EndsWith(s: string, suffix: string)
  {
    |suffix| <= |s| && s[|s| - |suffix|..] == suffix
  }

  /**
   * `s.replace(p, '')`: removes the occurrences of `p` found by a left-to-right scan,
   * without overlaps, as Python does.
   */
  function RemoveAll(s: string, p: string): (r: string)
    requires p != []
    ensures |r| <= |s|
    decreases |s|
  {
    if |s| < |p| then s
    else if p <= s then RemoveAll(s[|p|..], p)
    else [s[0]] + RemoveAll(s[1..], p)
  }

  /** Removal changes the text exactly when the pattern occurs in it, and then shortens it. */
  lemma {:induction false} RemoveAllChangesIffContains(s: string, p: string)
    requires p != []
    ensures RemoveAll(s, p) == s <==> !Contains(s, p)
    ensures Contains(s, p) ==> |RemoveAll(s, p)| < |s|
    decreases |s|
  {
    if |s| < |p| {
      NoRoomNoOccurrence(s, p);
    } else if p <= s {
    } else {
      RemoveAllChangesIffContains(s[1..], p);
      assert Contains(s, p) <==> Contains(s[1..], p);
      if RemoveAll(s, p) == s {
        assert RemoveAll(s[1..], p) == s[1..];
      }
    }
  }

  lemma {:induction false} NoRoomNoOccurrence(s: string, p: string)
    requires |s| < |p|
    ensures !Contains(s, p)
    decreases |s|
  {
    if s != [] {
      NoRoomNoOccurrence(s[1..], p);
    }
  }

  /** A prefix in which no match of `p` starts passes through `RemoveAll` untouched. */
  lemma {:induction false} RemoveAllKeepsPrefix(a: string, b: string, p: string)
    requires p != [] && forall i :: 0 <= i < |a| ==> !OccursAt(a + b, p, i)
    ensures RemoveAll(a + b, p) == a + RemoveAll(b, p)
    decreases |a|
  {
    if a != [] {
      var s := a + b;
      assert !OccursAt(s, p, 0);
      assert !(p <= s) by {
        if |p| <= |s| {
          assert s[0..|p|] == s[..|p|];
        }
      }
      assert s[1..] == a[1..] + b;
      forall i | 0 <= i < |a| - 1
        ensures !OccursAt(a[1..] + b, p, i)
      {
        assert !OccursAt(s, p, i + 1);
        if i + |p| <= |s| - 1 {
          assert s[1..][i..i + |p|] == s[i + 1..i + 1 + |p|];
        }
      }
      RemoveAllKeepsPrefix(a[1..], b, p);
      if |s| < |p| {
        NoRoomRemoveAll(b, p);
        assert RemoveAll(s, p) == s;
      } else {
        assert RemoveAll(s, p) == [s[0]] + RemoveAll(s[1..], p);
        assert RemoveAll(s[1..], p) == a[1..] + RemoveAll(b, p);
        assert RemoveAll(s, p) == [a[0]] + (a[1..] + RemoveAll(b, p));
        assert [a[0]] + (a[1..] + RemoveAll(b, p)) == a + RemoveAll(b, p);
      }
    } else {
      assert a + b == b;
    }
  }

  /**
   * Text free of `p`, followed by `t`, has no match of `p` starting before `t` when no
   * proper suffix of `p` is a prefix of `t`.
   */
  lemma NoMatchAcrossJoin(a: string, t: string, p: string)
    requires p != [] && |p| <= |t| && !Contains(a, p)
    requires forall j :: 1 <= j < |p| ==> t[..|p| - j] != p[j..]
    ensures forall i :: 0 <= i < |a| ==> !OccursAt(a + t, p, i)
  {
    var s := a + t;
    ContainsIffOccurs(a, p);
    forall i | 0 <= i < |a|
      ensures !OccursAt(s, p, i)
    {
      if i + |p| <= |a| {
        assert s[i..i + |p|] == a[i..i + |p|];
        assert !OccursAt(a, p, i);
      } else {
        var j := |a| - i;
        assert s[i..i + |p|][j..] == t[..|p| - j];
        assert t[..|p| - j] != p[j..];
      }
    }
  }

  /** Text in which some letter of `p` never appears does not contain `p`. */
  lemma MissingLetter(s: string, p: string, k: nat)
    requires k < |p| && p[k] !in s
    ensures !Contains(s, p)
  {
    ContainsIffOccurs(s, p);
    forall i: nat | i + |p| <= |s|
      ensures !OccursAt(s, p, i)
    {
      assert s[i..i + |p|][k] == s[i + k];
    }
  }

  lemma NoRoomRemoveAll(s: string, p: string)
    requires p != [] && |s| < |p|
    ensures RemoveAll(s, p) == s
  {
  }
}
