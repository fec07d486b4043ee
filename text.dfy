/**
 * Ordinal string operations the protocol layer relies on: substring search
 * (`string.Contains`), left-to-right removal of every occurrence of a pattern
 * (`string.Replace(pattern, "")`), deletion of a character class (a regular
 * expression such as `[>\r\n\0]` replaced by the empty string), splitting on
 * a separator and joining with one.
 */
module Text {

  /** `p` occurs in `s` (ordinal comparison, as `string.Contains`). */
  predicate Contains(s: string, p: string)
    decreases |s|
  {
    |p| <= |s| && (p <= s || Contains(s[1..], p))
  }

  /**
   * `s` with every occurrence of the non-empty pattern `p` deleted, scanning
   * from the left and resuming after each match, so matches never overlap.
   */
  function RemoveAll(s: string, p: string): (r: string)
    requires |p| > 0
    ensures |r| <= |s|
    decreases |s|
  {
    if |s| < |p| then s
    else if p <= s then RemoveAll(s[|p|..], p)
    else [s[0]] + RemoveAll(s[1..], p)
  }

  /** `s` with every character of `cs` deleted; the order of the rest is kept. */
  function Strip(s: string, cs: set<char>): (r: string)
    ensures |r| <= |s|
    ensures forall i :: 0 <= i < |r| ==> r[i] !in cs && r[i] in s
    decreases |s|
  {
    if s == [] then []
    else (if s[0] in cs then [] else [s[0]]) + Strip(s[1..], cs)
  }

  /** The pieces of `s` between the occurrences of `sep`, empty pieces included. */
  function Split(s: string, sep: char): (parts: seq<string>)
    ensures |parts| >= 1
    ensures forall i :: 0 <= i < |parts| ==> sep !in parts[i]
    decreases |s|
  {
    if s == [] then [""]
    else
      var rest := Split(s[1..], sep);
      if s[0] == sep then [""] + rest
      else [[s[0]] + rest[0]] + rest[1..]
  }

  /** The pieces of `parts` with `sep` between consecutive ones (`string.Join`). */
  function Join(parts: seq<string>, sep: string): string
    decreases |parts|
  {
    if parts == [] then ""
    else if |parts| == 1 then parts[0]
    else parts[0] + sep + Join(parts[1..], sep)
  }

  /** Concatenation of text is associative. */
  lemma AppendThree(a: string, b: string, c: string)
    ensures a + b + c == a + (b + c)
  {
  }

  /** Number of occurrences of the character `c` in `s`. */
  function CountChar(s: string, c: char): nat
    decreases |s|
  {
    if s == [] then 0 else (if s[0] == c then 1 else 0) + CountChar(s[1..], c)
  }

  /** A non-empty pattern that occurs in `s` has its first character in `s`. */
  lemma {:induction false} ContainsFirstChar(s: string, p: string)
    requires |p| > 0 && Contains(s, p)
    ensures p[0] in s
    decreases |s|
  {
    if p <= s {
      assert s[0] == p[0];
    } else {
      ContainsFirstChar(s[1..], p);
    }
  }

  /** A pattern whose first character is absent from `s` does not occur in it. */
  lemma MissingFirstChar(s: string, p: string)
    requires |p| > 0 && p[0] !in s
    ensures !Contains(s, p)
  {
    if Contains(s, p) {
      ContainsFirstChar(s, p);
    }
  }

  /** A string that starts with `p` contains it. */
  lemma ContainsPrefix(p: string, s: string)
    ensures Contains(p + s, p)
  {
    assert p <= p + s;
  }

  /** When `p` does not occur in `s`, removing it changes nothing. */
  lemma {:induction false} RemoveAllAbsent(s: string, p: string)
    requires |p| > 0 && !Contains(s, p)
    ensures RemoveAll(s, p) == s
    decreases |s|
  {
    if |s| >= |p| {
      RemoveAllAbsent(s[1..], p);
      assert [s[0]] + s[1..] == s;
    }
  }

  /** A leading occurrence of `p` is removed and the scan resumes after it. */
  lemma RemoveAllLeading(p: string, s: string)
    requires |p| > 0
    ensures RemoveAll(p + s, p) == RemoveAll(s, p)
  {
    assert p <= p + s;
    assert (p + s)[|p|..] == s;
  }

  /**
   * Removal is one left-to-right pass, so its result can still contain the
   * pattern: removing `TP` from `TTPP>` leaves `TP>`.
   */
  lemma RemovalIsOnePass()
    ensures RemoveAll("TTPP>", "TP") == "TP>"
    ensures Contains(RemoveAll("TTPP>", "TP"), "TP")
  {
    assert RemoveAll(">", "TP") == ">";
    assert RemoveAll("P>", "TP") == "P>" by {
      assert "P>"[..2][0] != "TP"[0];
      assert "P>"[1..] == ">";
    }
    assert RemoveAll("TPP>", "TP") == "P>" by {
      assert "TPP>"[..2] == "TP" && "TPP>"[2..] == "P>";
    }
    assert "TTPP>"[..2][1] != "TP"[1];
    assert "TTPP>"[1..] == "TPP>";
    ContainsPrefix("TP", ">");
  }

  /** Text none of whose characters occur in `p` is left alone. */
  lemma {:induction false} RemoveAllForeign(t: string, p: string)
    requires |p| > 0
    requires forall i :: 0 <= i < |t| ==> t[i] !in p
    ensures RemoveAll(t, p) == t
    decreases |t|
  {
    if |t| >= |p| {
      assert !(p <= t) by { assert t[0] !in p; assert p[0] in p; }
      RemoveAllForeign(t[1..], p);
      assert [t[0]] + t[1..] == t;
    }
  }

  /**
   * Appending text none of whose characters occur in `p` cannot create a new
   * occurrence of `p`: the removal acts on `s` alone.
   */
  lemma {:induction false} RemoveAllAppendForeign(s: string, t: string, p: string)
    requires |p| > 0
    requires forall i :: 0 <= i < |t| ==> t[i] !in p
    ensures RemoveAll(s + t, p) == RemoveAll(s, p) + t
    decreases |s|
  {
    if s == [] {
      assert s + t == t;
      RemoveAllForeign(t, p);
    } else if |s + t| < |p| {
    } else if p <= s {
      assert p <= s + t;
      assert (s + t)[|p|..] == s[|p|..] + t;
      RemoveAllAppendForeign(s[|p|..], t, p);
    } else {
      if |s| < |p| {
        // the window at the front would need t[0], which is not in p
        assert (s + t)[|s|] == t[0];
      }
      assert !(p <= s + t);
      assert (s + t)[1..] == s[1..] + t;
      RemoveAllAppendForeign(s[1..], t, p);
    }
  }

  /**
   * Appending text none of whose characters occur in `p` cannot create an
   * occurrence of `p`.
   */
  lemma {:induction false} ContainsAppendForeign(s: string, t: string, p: string)
    requires |p| > 0 && !Contains(s, p)
    requires forall i :: 0 <= i < |t| ==> t[i] !in p
    ensures !Contains(s + t, p)
    decreases |s|
  {
    if s == [] {
      assert s + t == t;
      assert p[0] !in t;
      MissingFirstChar(t, p);
    } else {
      if |p| <= |s| {
        assert (s + t)[..|p|] == s[..|p|];
      } else if |p| <= |s + t| {
        assert (s + t)[|s|] == t[0];
      }
      assert (s + t)[1..] == s[1..] + t;
      assert !Contains(s[1..], p);
      ContainsAppendForeign(s[1..], t, p);
    }
  }

  /** Stripping distributes over concatenation. */
  lemma {:induction false} StripAppend(a: string, b: string, cs: set<char>)
    ensures Strip(a + b, cs) == Strip(a, cs) + Strip(b, cs)
    decreases |a|
  {
    if a == [] {
      assert a + b == b;
    } else {
      assert (a + b)[1..] == a[1..] + b;
      StripAppend(a[1..], b, cs);
    }
  }

  /** A character outside `cs` survives stripping. */
  lemma {:induction false} StripKeeps(s: string, c: char, cs: set<char>)
    requires c in s && c !in cs
    ensures c in Strip(s, cs)
    decreases |s|
  {
    if s[0] == c {
      assert Strip(s, cs)[0] == c;
    } else {
      assert c in s[1..];
      StripKeeps(s[1..], c, cs);
    }
  }

  /** Text without a character of `cs` is left alone by stripping. */
  lemma {:induction false} StripNone(s: string, cs: set<char>)
    requires forall i :: 0 <= i < |s| ==> s[i] !in cs
    ensures Strip(s, cs) == s
    decreases |s|
  {
    if s != [] {
      StripNone(s[1..], cs);
      assert [s[0]] + s[1..] == s;
    }
  }

  /** Text made only of characters of `cs` strips to nothing. */
  lemma {:induction false} StripAll(s: string, cs: set<char>)
    requires forall i :: 0 <= i < |s| ==> s[i] in cs
    ensures Strip(s, cs) == []
    decreases |s|
  {
    if s != [] {
      StripAll(s[1..], cs);
    }
  }

  /** Splitting and joining again with the same separator gives back the text. */
  lemma {:induction false} JoinSplit(s: string, sep: char)
    ensures Join(Split(s, sep), [sep]) == s
    decreases |s|
  {
    if s != [] {
      var rest := Split(s[1..], sep);
      JoinSplit(s[1..], sep);
      if s[0] == sep {
        assert Split(s, sep) == [""] + rest;
        assert ([""] + rest)[1..] == rest;
      } else {
        var parts := [[s[0]] + rest[0]] + rest[1..];
        assert Split(s, sep) == parts;
        if |rest| == 1 {
          assert rest == [rest[0]];
        } else {
          assert parts[1..] == rest[1..];
          assert Join(rest, [sep]) == rest[0] + [sep] + Join(rest[1..], [sep]);
        }
      }
    }
  }

  /** Split gives one more piece than there are separators. */
  lemma {:induction false} SplitCount(s: string, sep: char)
    ensures |Split(s, sep)| == CountChar(s, sep) + 1
    decreases |s|
  {
    if s != [] {
      SplitCount(s[1..], sep);
    }
  }

  /** Joining pieces that do not contain the separator, and splitting again, gives back the pieces. */
  lemma {:induction false} SplitJoin(parts: seq<string>, sep: char)
    requires |parts| >= 1
    requires forall i :: 0 <= i < |parts| ==> sep !in parts[i]
    ensures Split(Join(parts, [sep]), sep) == parts
    decreases |parts|, |parts[0]|
  {
    if |parts| == 1 {
      SplitPlain(parts[0], sep);
    } else if parts[0] == "" {
      var tail := Join(parts[1..], [sep]);
      assert Join(parts, [sep]) == [sep] + tail;
      assert ([sep] + tail)[1..] == tail;
      SplitJoin(parts[1..], sep);
      assert parts == [""] + parts[1..];
    } else {
      var first := parts[0];
      var shorter := [first[1..]] + parts[1..];
      JoinFirstChar(parts, sep);
      var s := Join(parts, [sep]);
      assert s[1..] == Join(shorter, [sep]);
      assert first[0] in parts[0];
      SplitJoin(shorter, sep);
      assert [first[0]] + first[1..] == first;
      assert parts == [first] + parts[1..];
    }
  }

  /** Joining pieces whose first is non-empty starts with that piece's first character. */
  lemma JoinFirstChar(parts: seq<string>, sep: char)
    requires |parts| >= 1 && parts[0] != ""
    ensures Join(parts, [sep]) == [parts[0][0]] + Join([parts[0][1..]] + parts[1..], [sep])
  {
    var first := parts[0];
    var shorter := [first[1..]] + parts[1..];
    assert first == [first[0]] + first[1..];
    assert |shorter| == |parts| && shorter[0] == first[1..];
    if |parts| == 1 {
      assert Join(shorter, [sep]) == first[1..];
    } else {
      assert shorter[1..] == parts[1..];
      var rest := Join(parts[1..], [sep]);
      assert Join(parts, [sep]) == first + [sep] + rest;
      assert Join(shorter, [sep]) == first[1..] + [sep] + rest;
      assert [first[0]] + (first[1..] + [sep] + rest) == ([first[0]] + first[1..]) + [sep] + rest;
    }
  }

  /** Text without the separator splits into itself. */
  lemma {:induction false} SplitPlain(s: string, sep: char)
    requires sep !in s
    ensures Split(s, sep) == [s]
    decreases |s|
  {
    if s != [] {
      SplitPlain(s[1..], sep);
      assert [s[0]] + s[1..] == s;
    }
  }
}
