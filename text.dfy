/** The string operations the launcher relies on, with Python's meaning:
    `str.replace`, `str.split`, `str.split(sep, 1)` and `sep.join`, and the
    facts about placeholders (`${...}` markers) that argument substitution
    and classifier keys depend on. */
module Text {
  import opened Schema

  predicate IsPrefix(t: string, s: string)
  {
    |t| <= |s| && s[..|t|] == t
  }

  /** `t` occurs in `s` starting at index `i`. */
  predicate OccursAt(t: string, s: string, i: int)
  {
    0 <= i <= |s| && IsPrefix(t, s[i..])
  }

  predicate Contains(s: string, t: string)
  {
    exists i :: 0 <= i <= |s| && OccursAt(t, s, i)
  }

  predicate NoDollar(s: string)
  {
    forall k :: 0 <= k < |s| ==> s[k] != '$'
  }

  /** Python's `s.replace(pat, rep)`: every occurrence of `pat`, found by a
      left-to-right scan that resumes after each replaced occurrence. */
  function ReplaceAll(s: string, pat: string, rep: string): string
    requires |pat| > 0
    decreases |s|
  {
    if |s| == 0 then ""
    else if IsPrefix(pat, s) then rep + ReplaceAll(s[|pat|..], pat, rep)
    else [s[0]] + ReplaceAll(s[1..], pat, rep)
  }

  /** Python's `sep.join(parts)`. */
  function Join(sep: string, parts: seq<string>): string
    decreases |parts|
  {
    if |parts| == 0 then ""
    else if |parts| == 1 then parts[0]
    else parts[0] + sep + Join(sep, parts[1..])
  }

  /** Python's `s.split(c)` for a one-character separator: never empty, and
      `""` splits into `[""]`. */
  function Split(s: string, c: char): (parts: seq<string>)
    ensures |parts| >= 1
    ensures Join([c], parts) == s
    ensures forall k :: 0 <= k < |parts| ==> c !in parts[k]
    decreases |s|
  {
    if |s| == 0 then [""]
    else if s[0] == c then
      var rest := Split(s[1..], c);
      assert ([""] + rest)[1..] == rest;
      assert s == [c] + s[1..];
      [""] + rest
    else
      var rest := Split(s[1..], c);
      JoinCons([c], s[0], rest[0], rest[1..]);
      assert [rest[0]] + rest[1..] == rest;
      assert s == [s[0]] + s[1..];
      [[s[0]] + rest[0]] + rest[1..]
  }

  /** Python's `s.split(c, 1)`: the text before the first `c`, and the text
      after it when there is one. */
  function SplitOnce(s: string, c: char): (r: (string, Option<string>))
    ensures c !in r.0
    ensures r.1.None? ==> r.0 == s && c !in s
    ensures r.1.Some? ==> s == r.0 + [c] + r.1.value
    decreases |s|
  {
    if |s| == 0 then ("", None)
    else if s[0] == c then ("", Some(s[1..]))
    else
      var (head, tail) := SplitOnce(s[1..], c);
      ([s[0]] + head, tail)
  }

  /** Replacing a pattern that does not occur changes nothing. */
  lemma {:induction false} ReplaceAllAbsent(s: string, pat: string, rep: string)
    requires |pat| > 0
    requires !Contains(s, pat)
    ensures ReplaceAll(s, pat, rep) == s
    decreases |s|
  {
    if |s| > 0 {
      assert !OccursAt(pat, s, 0);
      forall i | OccursAt(pat, s[1..], i)
        ensures OccursAt(pat, s, i + 1)
      {
        assert s[1..][i..] == s[i + 1..];
      }
      ReplaceAllAbsent(s[1..], pat, rep);
    }
  }

  /** A pattern longer than the text cannot occur in it. */
  lemma ReplaceAllShorter(s: string, pat: string, rep: string)
    requires |s| < |pat|
    ensures ReplaceAll(s, pat, rep) == s
  {
    ReplaceAllAbsent(s, pat, rep);
  }

  /** A text that is exactly the pattern is replaced as a whole. */
  lemma ReplaceAllWhole(s: string, rep: string)
    requires |s| > 0
    ensures ReplaceAll(s, s, rep) == rep
  {
    assert IsPrefix(s, s);
    assert rep + "" == rep;
  }

  lemma JoinCons(sep: string, c: char, x: string, ys: seq<string>)
    ensures Join(sep, [[c] + x] + ys) == [c] + Join(sep, [x] + ys)
  {
    if |ys| > 0 {
      assert ([[c] + x] + ys)[1..] == ys;
      assert ([x] + ys)[1..] == ys;
    }
  }

  /** Appending one more part to a non-empty join. */
  lemma {:induction false} JoinSnoc(sep: string, parts: seq<string>, last: string)
    requires |parts| >= 1
    ensures Join(sep, parts + [last]) == Join(sep, parts) + sep + last
    decreases |parts|
  {
    if |parts| > 1 {
      assert (parts + [last])[1..] == parts[1..] + [last];
      JoinSnoc(sep, parts[1..], last);
    }
  }

  lemma {:induction false} SplitPlainPrefix(w: string, tail: string, c: char)
    requires c !in w
    ensures Split(w + tail, c) == [w + Split(tail, c)[0]] + Split(tail, c)[1..]
    decreases |w|
  {
    if |w| == 0 {
      assert w + tail == tail;
      assert w + Split(tail, c)[0] == Split(tail, c)[0];
      assert Split(tail, c) == [Split(tail, c)[0]] + Split(tail, c)[1..];
    } else {
      assert (w + tail)[1..] == w[1..] + tail;
      SplitPlainPrefix(w[1..], tail, c);
      assert [w[0]] + (w[1..] + Split(tail, c)[0]) == w + Split(tail, c)[0];
    }
  }

  /** Splitting a join on its one-character separator gives the parts back,
      when no part contains the separator. */
  lemma {:induction false} SplitJoin(parts: seq<string>, c: char)
    requires |parts| >= 1
    requires forall k :: 0 <= k < |parts| ==> c !in parts[k]
    ensures Split(Join([c], parts), c) == parts
    decreases |parts|
  {
    if |parts| == 1 {
      SplitPlainPrefix(parts[0], "", c);
      assert parts[0] + "" == parts[0];
    } else {
      var rest := Join([c], parts[1..]);
      assert Join([c], parts) == parts[0] + ([c] + rest);
      SplitPlainPrefix(parts[0], [c] + rest, c);
      assert ([c] + rest)[1..] == rest;
      SplitJoin(parts[1..], c);
      assert Split([c] + rest, c) == [""] + parts[1..];
      assert parts[0] + "" == parts[0];
      assert parts == [parts[0]] + parts[1..];
    }
  }

  /** `", ".join(s.split(","))` puts a space after every comma. */
  lemma {:induction false} CommaSpacing(s: string)
    ensures Join(", ", Split(s, ',')) == ReplaceAll(s, ",", ", ")
    decreases |s|
  {
    if |s| > 0 {
      CommaSpacing(s[1..]);
      var rest := Split(s[1..], ',');
      if s[0] == ',' {
        assert IsPrefix(",", s);
        assert ([""] + rest)[1..] == rest;
      } else {
        assert !IsPrefix(",", s);
        JoinCons(", ", s[0], rest[0], rest[1..]);
        assert [rest[0]] + rest[1..] == rest;
      }
    }
  }

  /** A placeholder: a `$`, then characters that are neither `$` nor `}`,
      then the closing `}` (`${version_name}`, `${arch}`, ...). */
  predicate Placeholder(t: string)
  {
    && |t| >= 2
    && t[0] == '$'
    && t[|t| - 1] == '}'
    && forall k :: 0 < k < |t| - 1 ==> t[k] != '$' && t[k] != '}'
  }

  /** Every `$` of `s` opens a placeholder that is not one of `done`. */
  ghost predicate DollarsOpen(s: string, done: set<string>)
  {
    forall i :: 0 <= i < |s| && s[i] == '$' ==>
      exists t :: Placeholder(t) && t !in done && OccursAt(t, s, i)
  }

  /** At most one placeholder starts at a given index. */
  lemma PlaceholderAt(t1: string, t2: string, s: string, i: int)
    requires Placeholder(t1) && Placeholder(t2)
    requires OccursAt(t1, s, i) && OccursAt(t2, s, i)
    ensures t1 == t2
  {
    forall k | 0 <= k < |t1| && k < |t2|
      ensures t1[k] == t2[k]
    {
      assert t1[k] == s[i..][k] && t2[k] == s[i..][k];
    }
  }

  /** A string in which every `$` opens a placeholder outside `done` contains
      no placeholder of `done`. */
  lemma NoDoneOccurs(s: string, done: set<string>, t: string)
    requires DollarsOpen(s, done)
    requires t in done && Placeholder(t)
    ensures !Contains(s, t)
  {
    forall i | OccursAt(t, s, i)
      ensures false
    {
      assert s[i..][0] == t[0];
      assert s[i] == '$';
      var t' :| Placeholder(t') && t' !in done && OccursAt(t', s, i);
      PlaceholderAt(t, t', s, i);
      assert false;
    }
  }

  lemma DollarsOpenSuffix(s: string, done: set<string>, j: nat)
    requires DollarsOpen(s, done) && j <= |s|
    ensures DollarsOpen(s[j..], done)
  {
    forall i | 0 <= i < |s[j..]| && s[j..][i] == '$'
      ensures exists t :: Placeholder(t) && t !in done && OccursAt(t, s[j..], i)
    {
      assert s[j + i] == '$';
      var t :| Placeholder(t) && t !in done && OccursAt(t, s, j + i);
      assert s[j..][i..] == s[j + i..];
      assert OccursAt(t, s[j..], i);
    }
  }

  /** Putting `$`-free text in front keeps every `$` opening its placeholder. */
  lemma DollarsOpenPrepend(a: string, b: string, done: set<string>)
    requires NoDollar(a) && DollarsOpen(b, done)
    ensures DollarsOpen(a + b, done)
  {
    forall i | 0 <= i < |a + b| && (a + b)[i] == '$'
      ensures exists t :: Placeholder(t) && t !in done && OccursAt(t, a + b, i)
    {
      assert i >= |a|;
      assert b[i - |a|] == '$';
      var t :| Placeholder(t) && t !in done && OccursAt(t, b, i - |a|);
      assert (a + b)[i..] == b[i - |a|..];
      assert OccursAt(t, a + b, i);
    }
  }

  /** Text without a `$` contains no `$`-led pattern. */
  lemma NoDollarNoPlaceholder(s: string, t: string)
    requires NoDollar(s) && |t| > 0 && t[0] == '$'
    ensures !Contains(s, t)
  {
    forall i | OccursAt(t, s, i)
      ensures false
    {
      assert false;
    }
  }

  /** A placeholder followed by `$`-free text contains no other
      placeholder. */
  lemma OnlyLeadingPlaceholder(p: string, rest: string, t: string)
    requires Placeholder(p) && Placeholder(t) && t != p
    requires NoDollar(rest)
    ensures !Contains(p + rest, t)
  {
    var s := p + rest;
    forall i | OccursAt(t, s, i)
      ensures false
    {
      assert s[i..][0] == t[0];
      if i == 0 {
        assert s[0..] == s;
        PlaceholderAt(t, p, s, 0);
      } else {
        assert false;
      }
    }
  }

  /** A replacement of a `$`-led pattern keeps a `$`-free prefix in place. */
  lemma {:induction false} ReplaceKeepsPlainPrefix(u: string, w: string, pat: string, rep: string)
    requires |pat| > 0 && pat[0] == '$'
    requires NoDollar(w) && IsPrefix(w, u)
    ensures IsPrefix(w, ReplaceAll(u, pat, rep))
    decreases |w|
  {
    if |w| > 0 {
      assert u[0] == w[0];
      assert !IsPrefix(pat, u);
      assert IsPrefix(w[1..], u[1..]);
      ReplaceKeepsPlainPrefix(u[1..], w[1..], pat, rep);
      assert w == [u[0]] + w[1..];
    }
  }

  /** Replacing a placeholder by a `$`-free value: afterwards every `$` opens
      a placeholder that is neither in `done` nor the one just replaced. */
  lemma {:induction false} ReplaceClears(s: string, pat: string, rep: string, done: set<string>)
    requires Placeholder(pat) && NoDollar(rep)
    requires DollarsOpen(s, done)
    ensures DollarsOpen(ReplaceAll(s, pat, rep), done + {pat})
    decreases |s|
  {
    if |s| == 0 {
    } else if IsPrefix(pat, s) {
      DollarsOpenSuffix(s, done, |pat|);
      ReplaceClears(s[|pat|..], pat, rep, done);
      DollarsOpenPrepend(rep, ReplaceAll(s[|pat|..], pat, rep), done + {pat});
    } else {
      DollarsOpenSuffix(s, done, 1);
      ReplaceClears(s[1..], pat, rep, done);
      var tail := ReplaceAll(s[1..], pat, rep);
      var r := [s[0]] + tail;
      forall i | 0 <= i < |r| && r[i] == '$'
        ensures exists t :: Placeholder(t) && t !in done + {pat} && OccursAt(t, r, i)
      {
        if i == 0 {
          var t :| Placeholder(t) && t !in done && OccursAt(t, s, 0);
          assert t != pat;
          assert NoDollar(t[1..]);
          assert s[0..] == s;
          assert IsPrefix(t[1..], s[1..]);
          ReplaceKeepsPlainPrefix(s[1..], t[1..], pat, rep);
          assert t == [s[0]] + t[1..];
          assert OccursAt(t, r, 0);
        } else {
          assert tail[i - 1] == '$';
          var t :| Placeholder(t) && t !in done + {pat} && OccursAt(t, tail, i - 1);
          assert r[i..] == tail[i - 1..];
          assert OccursAt(t, r, i);
        }
      }
    }
  }
}
