/** The few Python string operations the editor relies on: deleting every
    occurrence of one character (`s.replace(c, "")`), splitting on a
    one-character separator (`s.split(sep)`) and joining (`sep.join(xs)`). */
module Text {

  /** `s.replace(c, "")`: `s` with every occurrence of `c` deleted. */
  function Strip(s: string, c: char): (r: string)
    ensures c !in r
    ensures |r| <= |s|
    ensures forall x :: x in r ==> x in s
  {
    if |s| == 0 then ""
    else (if s[0] == c then "" else [s[0]]) + Strip(s[1..], c)
  }

  /** Deleting `c` leaves nothing exactly when `s` consists of `c` alone. */
  lemma {:induction false} StripEmptyIff(s: string, c: char)
    ensures |Strip(s, c)| == 0 <==> forall i :: 0 <= i < |s| ==> s[i] == c
  {
    if |s| > 0 {
      StripEmptyIff(s[1..], c);
      if forall i :: 0 <= i < |s[1..]| ==> s[1..][i] == c {
        if s[0] == c {
          assert forall i :: 0 <= i < |s| ==> s[i] == c by {
            forall i | 0 <= i < |s| ensures s[i] == c {
              if i > 0 { assert s[i] == s[1..][i - 1]; }
            }
          }
        }
      } else {
        var j :| 0 <= j < |s[1..]| && s[1..][j] != c;
        assert s[j + 1] != c;
      }
    }
  }

  /** A string without `c` is left as it is. */
  lemma {:induction false} StripAbsent(s: string, c: char)
    requires c !in s
    ensures Strip(s, c) == s
  {
    if |s| > 0 {
      assert s[0] != c;
      StripAbsent(s[1..], c);
      assert [s[0]] + s[1..] == s;
    }
  }

  /** Deleting a character distributes over concatenation. */
  lemma {:induction false} StripConcat(a: string, b: string, c: char)
    ensures Strip(a + b, c) == Strip(a, c) + Strip(b, c)
    decreases |a|
  {
    if |a| == 0 {
      assert a + b == b;
    } else {
      assert (a + b)[0] == a[0];
      assert (a + b)[1..] == a[1..] + b;
      StripConcat(a[1..], b, c);
    }
  }

  /** `s.split(sep)` as Python computes it: the maximal runs between
      separators, so one more field than there are separators. */
  function Split(s: string, sep: char): (fields: seq<string>)
    ensures |fields| >= 1
    ensures forall i :: 0 <= i < |fields| ==> sep !in fields[i]
    decreases |s|
  {
    if |s| == 0 then [""]
    else
      var rest := Split(s[1..], sep);
      if s[0] == sep then [""] + rest
      else [[s[0]] + rest[0]] + rest[1..]
  }

  /** `sep.join(fields)`. */
  function Join(fields: seq<string>, sep: char): string
  {
    if |fields| == 0 then ""
    else if |fields| == 1 then fields[0]
    else fields[0] + [sep] + Join(fields[1..], sep)
  }

  /** Joining the fields of a split gives back the original text. */
  lemma {:induction false} JoinSplit(s: string, sep: char)
    ensures Join(Split(s, sep), sep) == s
    decreases |s|
  {
    if |s| > 0 {
      var rest := Split(s[1..], sep);
      JoinSplit(s[1..], sep);
      if s[0] == sep {
        assert Split(s, sep) == [""] + rest;
        assert ([""] + rest)[1..] == rest;
        assert s == [sep] + s[1..];
      } else {
        var fs := [[s[0]] + rest[0]] + rest[1..];
        assert Split(s, sep) == fs;
        if |rest| == 1 {
          assert Join(fs, sep) == [s[0]] + rest[0];
          assert s == [s[0]] + s[1..];
        } else {
          assert fs[1..] == rest[1..];
          assert Join(rest, sep) == rest[0] + [sep] + Join(rest[1..], sep);
          assert Join(fs, sep) == [s[0]] + rest[0] + [sep] + Join(rest[1..], sep);
          assert s == [s[0]] + s[1..];
        }
      }
    }
  }

  /** A text free of the separator splits into one field. */
  lemma {:induction false} SplitNoSeparator(a: string, sep: char)
    requires sep !in a
    ensures Split(a, sep) == [a]
    decreases |a|
  {
    if |a| > 0 {
      SplitNoSeparator(a[1..], sep);
      assert a[0] != sep;
      assert [a[0]] + a[1..] == a;
    }
  }

  /** Splitting `a + [sep] + b`, with `a` free of the separator, yields `a`
      followed by the fields of `b`. */
  lemma {:induction false} SplitAfterField(a: string, b: string, sep: char)
    requires sep !in a
    ensures Split(a + [sep] + b, sep) == [a] + Split(b, sep)
    decreases |a|
  {
    if |a| == 0 {
      assert a + [sep] + b == [sep] + b;
      assert ([sep] + b)[1..] == b;
    } else {
      var t := a + [sep] + b;
      assert t[0] == a[0] && a[0] != sep;
      assert t[1..] == a[1..] + [sep] + b;
      SplitAfterField(a[1..], b, sep);
      assert [a[0]] + a[1..] == a;
    }
  }

  /** Splitting the join of separator-free fields gives the fields back. */
  lemma {:induction false} SplitJoin(fields: seq<string>, sep: char)
    requires |fields| >= 1
    requires forall i :: 0 <= i < |fields| ==> sep !in fields[i]
    ensures Split(Join(fields, sep), sep) == fields
  {
    if |fields| == 1 {
      SplitNoSeparator(fields[0], sep);
    } else {
      SplitJoin(fields[1..], sep);
      SplitAfterField(fields[0], Join(fields[1..], sep), sep);
      assert [fields[0]] + fields[1..] == fields;
    }
  }

  /** Text appended after a join lands in the last field. */
  lemma {:induction false} JoinAppend(fields: seq<string>, t: string, sep: char)
    requires |fields| >= 1
    ensures Join(fields, sep) + t
         == Join(fields[..|fields| - 1] + [fields[|fields| - 1] + t], sep)
  {
    if |fields| > 1 {
      var n := |fields|;
      var g := fields[..n - 1] + [fields[n - 1] + t];
      JoinAppend(fields[1..], t, sep);
      assert g[0] == fields[0];
      assert g[1..] == fields[1..][..n - 2] + [fields[1..][n - 2] + t];
    }
  }
}
