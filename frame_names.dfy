/** The filename tests the two core files apply to frame names: the regular
    expression `-*[0-9]+(?=\.jpg)` used anchored (`re.match`) and unanchored
    (`re.search`), the glob `*.jpg`, the substring test `"jpg" in name` and
    the stem `name[:-4]`. */
module FrameNames {
  import opened PyBuiltins

  const EXTENSION := ".jpg"

  /** End of the run of `-` characters that starts at `i`. */
  function DashRun(f: string, i: nat): (j: nat)
    requires i <= |f|
    ensures i <= j <= |f|
    ensures j == |f| || f[j] != '-'
    decreases |f| - i
  {
    if i < |f| && f[i] == '-' then DashRun(f, i + 1) else i
  }

  /** End of the run of ASCII digits that starts at `i`. */
  function DigitRun(f: string, i: nat): (j: nat)
    requires i <= |f|
    ensures i <= j <= |f|
    ensures j == |f| || !IsDigit(f[j])
    decreases |f| - i
  {
    if i < |f| && IsDigit(f[i]) then DigitRun(f, i + 1) else i
  }

  /** DashRun(f, i) is the first position from `i` on that is not a dash. */
  lemma {:induction false} DashRunIsRun(f: string, i: nat, a: nat)
    requires i <= a <= |f|
    ensures DashRun(f, i) == a <==> (forall k :: i <= k < a ==> f[k] == '-') && (a == |f| || f[a] != '-')
    decreases |f| - i
  {
    if i < |f| && f[i] == '-' {
      if a > i {
        DashRunIsRun(f, i + 1, a);
      } else {
        assert a == i && DashRun(f, i) != a;
      }
    }
  }

  /** DigitRun(f, i) is the first position from `i` on that is not a digit. */
  lemma {:induction false} DigitRunIsRun(f: string, i: nat, d: nat)
    requires i <= d <= |f|
    ensures DigitRun(f, i) == d <==> (forall k :: i <= k < d ==> IsDigit(f[k])) && (d == |f| || !IsDigit(f[d]))
    decreases |f| - i
  {
    if i < |f| && IsDigit(f[i]) {
      if d > i {
        DigitRunIsRun(f, i + 1, d);
      } else {
        assert d == i && DigitRun(f, i) != d;
      }
    }
  }

  /** `.jpg` starts at position k. */
  predicate ExtensionAt(f: string, k: nat)
  {
    k + 4 <= |f| && f[k] == '.' && f[k + 1] == 'j' && f[k + 2] == 'p' && f[k + 3] == 'g'
  }

  /** The pattern occupies f[i..d] with the dashes in f[i..a] and the digits in
      f[a..d], and `.jpg` follows at d (the lookahead does not consume it). */
  predicate PatternAt(f: string, i: nat, a: nat, d: nat)
  {
    i <= a < d && ExtensionAt(f, d)
    && (forall k :: i <= k < a ==> f[k] == '-')
    && (forall k :: a <= k < d ==> IsDigit(f[k]))
  }

  /** Where a match of the pattern that starts at `i` ends, if there is one.
      Greedy `-*` and `[0-9]+` gain nothing by backtracking: a shorter dash
      run leaves a dash where a digit is needed, and a shorter digit run
      leaves a digit where the `.` of the lookahead is needed. */
  function MatchEnd(f: string, i: nat): (r: Option<nat>)
    requires i <= |f|
    ensures r.Some? ==> i < r.value && ExtensionAt(f, r.value)
  {
    var a := DashRun(f, i);
    var d := DigitRun(f, a);
    if a < d && ExtensionAt(f, d) then Some(d) else None
  }

  /** A match MatchEnd reports is an occurrence of the pattern. */
  lemma MatchEndSound(f: string, i: nat)
    requires i <= |f|
    ensures MatchEnd(f, i).Some? ==> PatternAt(f, i, DashRun(f, i), MatchEnd(f, i).value)
  {
    var a := DashRun(f, i);
    DashRunIsRun(f, i, a);
    DigitRunIsRun(f, a, DigitRun(f, a));
  }

  /** Every occurrence of the pattern that starts at i is the one MatchEnd
      reports: greedy matching misses nothing. */
  lemma MatchEndComplete(f: string, i: nat)
    requires i <= |f|
    ensures forall a: nat, d: nat :: PatternAt(f, i, a, d) ==> MatchEnd(f, i) == Some(d)
  {
    forall a: nat, d: nat | PatternAt(f, i, a, d) ensures MatchEnd(f, i) == Some(d) {
      assert IsDigit(f[a]);
      DashRunIsRun(f, i, a);
      DigitRunIsRun(f, a, d);
    }
  }

  /** `re.match(pattern, f) is not None`: the pattern occurs at the start. */
  predicate Matches(f: string)
  {
    MatchEnd(f, 0).Some?
  }

  /** `re.search(pattern, f)` looked for from position `i` on: the leftmost
      position at or after `i` where a match starts. */
  function SearchFrom(f: string, i: nat): (r: Option<nat>)
    requires i <= |f|
    ensures r.Some? ==> i <= r.value <= |f| && MatchEnd(f, r.value).Some?
    decreases |f| - i
  {
    if MatchEnd(f, i).Some? then Some(i)
    else if i == |f| then None
    else SearchFrom(f, i + 1)
  }

  /** The search finds the leftmost match: none starts between `i` and the
      position it reports. */
  lemma {:induction false} SearchFromLeftmost(f: string, i: nat)
    requires i <= |f| && SearchFrom(f, i).Some?
    ensures forall k: nat :: i <= k < SearchFrom(f, i).value ==> MatchEnd(f, k).None?
    decreases |f| - i
  {
    if MatchEnd(f, i).None? {
      var r := SearchFrom(f, i + 1);
      assert SearchFrom(f, i) == r;
      SearchFromLeftmost(f, i + 1);
      forall k: nat | i <= k < r.value ensures MatchEnd(f, k).None? {
        if k > i { assert i + 1 <= k < r.value; }
      }
    }
  }

  /** When the search reports nothing, no match starts anywhere from `i` on. */
  lemma {:induction false} SearchFromNone(f: string, i: nat)
    requires i <= |f| && SearchFrom(f, i).None?
    ensures forall k: nat :: i <= k <= |f| ==> MatchEnd(f, k).None?
    decreases |f| - i
  {
    if i < |f| {
      assert SearchFrom(f, i + 1).None?;
      SearchFromNone(f, i + 1);
      forall k: nat | i <= k <= |f| ensures MatchEnd(f, k).None? {
        if k > i { assert i + 1 <= k <= |f|; }
      }
    }
  }

  /** Where `re.search(pattern, f)` finds its match, if anywhere. */
  function SearchStart(f: string): (r: Option<nat>)
    ensures r.Some? ==> r.value <= |f| && MatchEnd(f, r.value).Some?
  {
    SearchFrom(f, 0)
  }

  /** `m.group(0)` of a successful search: the dashes and digits of the
      leftmost match, without the `.jpg` the lookahead only peeks at. */
  function Group(f: string): (g: string)
    requires SearchStart(f).Some?
    ensures |g| >= 1 && IsDigit(g[|g| - 1])
  {
    var i := SearchStart(f).value;
    MatchEndSound(f, i);
    f[i..MatchEnd(f, i).value]
  }

  /** int() reads the group of a found name unless it starts with two
      dashes, as in `--5.jpg`. */
  lemma GroupParses(f: string)
    requires SearchStart(f).Some?
    ensures ParseInt(Group(f)).None? <==> |Group(f)| >= 2 && Group(f)[0] == '-' && Group(f)[1] == '-'
  {
    var i := SearchStart(f).value;
    MatchEndSound(f, i);
    var a := DashRun(f, i);
    var d := MatchEnd(f, i).value;
    var g := Group(f);
    assert g == f[i..d];
    assert forall k :: a - i <= k < |g| ==> IsDigit(g[k]) by {
      forall k | a - i <= k < |g| ensures IsDigit(g[k]) {
        assert g[k] == f[i + k];
      }
    }
    if a == i {
      ParseUnsigned(g);
    } else if a == i + 1 {
      assert g == "-" + g[1..];
      assert AllDigits(g[1..]) by {
        forall k | 0 <= k < |g[1..]| ensures IsDigit(g[1..][k]) {
          assert g[1..][k] == g[k + 1];
        }
      }
      ParseNegative(g[1..]);
    } else {
      assert g[0] == f[i] && g[1] == f[i + 1];
      ParseIntDoubleMinus(g);
    }
  }

  /** A name is counted (anchored match) iff it is zero or more dashes, one or
      more digits and `.jpg`, followed by anything; the unanchored search
      finds such a name at position 0 with the same match. */
  lemma MatchesSpec(f: string)
    ensures Matches(f) <==> exists a: nat, d: nat :: PatternAt(f, 0, a, d)
    ensures Matches(f) ==> SearchStart(f) == Some(0)
  {
    MatchEndSound(f, 0);
    MatchEndComplete(f, 0);
  }

  /** The search succeeds iff the pattern occurs somewhere in the name. */
  lemma SearchSpec(f: string)
    ensures SearchStart(f).Some? <==> exists i: nat, a: nat, d: nat :: i <= |f| && PatternAt(f, i, a, d)
  {
    if SearchStart(f).Some? {
      var i := SearchStart(f).value;
      MatchEndSound(f, i);
      assert PatternAt(f, i, DashRun(f, i), MatchEnd(f, i).value);
    } else {
      SearchFromNone(f, 0);
      forall i: nat, a: nat, d: nat | i <= |f| && PatternAt(f, i, a, d) ensures false {
        MatchEndComplete(f, i);
      }
    }
  }

  /** `x12.jpg` is renamed by the search loop but is not counted toward the
      minimum by the anchored match. */
  lemma SearchWithoutMatchExample()
    ensures !Matches("x12.jpg")
    ensures SearchStart("x12.jpg") == Some(1) && Group("x12.jpg") == "12"
  {
    var f := "x12.jpg";
    assert DashRun(f, 0) == 0 && DigitRun(f, 0) == 0;
    assert DashRun(f, 1) == 1;
    assert DigitRun(f, 3) == 3;
    assert DigitRun(f, 1) == 3;
    assert f[3..7] == EXTENSION;
  }

  /** `name[:-4]`, the stem the counting pass hands to `int()`. */
  function Stem(f: string): (s: string)
    ensures |f| >= 4 ==> s == f[..|f| - 4]
    ensures |f| < 4 ==> s == ""
  {
    Slice(f, 0, -4)
  }

  /** For a counted name, `int(name[:-4])` succeeds exactly when the name is
      the match followed by `.jpg` and nothing else, with at most one dash;
      it then agrees with `int(m.group(0))` of the renaming loop. */
  lemma CountedStemParse(f: string)
    requires Matches(f)
    ensures ParseInt(Stem(f)).Some? <==> (|f| == MatchEnd(f, 0).value + 4 && DashRun(f, 0) <= 1)
    ensures ParseInt(Stem(f)).Some? ==> Stem(f) == Group(f)
  {
    MatchEndSound(f, 0);
    var e := MatchEnd(f, 0).value;
    if |f| == e + 4 {
      StemIsMatch(f);
    } else {
      assert f[e] == '.' by { assert f[e..e + 4][0] == f[e]; }
      assert e < |Stem(f)| && Stem(f)[e] == '.';
      ParseIntRejects(Stem(f), e);
    }
  }

  /** `[int(name[:-4]) for name in names]`, None if any `int()` fails. */
  function ParseStems(names: seq<string>): (r: Option<seq<int>>)
    ensures r.Some? ==> |r.value| == |names|
  {
    if names == [] then Some([])
    else
      match ParseInt(Stem(names[0]))
      case None => None
      case Some(t) =>
        match ParseStems(names[1..])
        case None => None
        case Some(ts) => Some([t] + ts)
  }

  /** The comprehension succeeds exactly when every `int()` does, and then
      holds their values in order. */
  lemma {:induction false} ParseStemsSpec(names: seq<string>)
    ensures ParseStems(names).Some? <==> forall i :: 0 <= i < |names| ==> ParseInt(Stem(names[i])).Some?
    ensures ParseStems(names).Some?
            ==> forall i :: 0 <= i < |names| ==> ParseStems(names).value[i] == ParseInt(Stem(names[i])).value
    decreases |names|
  {
    if names != [] {
      ParseStemsSpec(names[1..]);
      assert forall i :: 1 <= i < |names| ==> names[1..][i - 1] == names[i];
    }
  }

  /** A counted name that is exactly the match and `.jpg`: its stem is the
      match, which int() reads unless it starts with two dashes. */
  lemma StemIsMatch(f: string)
    requires Matches(f) && |f| == MatchEnd(f, 0).value + 4
    ensures Stem(f) == Group(f)
    ensures ParseInt(Stem(f)).Some? <==> DashRun(f, 0) <= 1
  {
    MatchEndSound(f, 0);
    var a := DashRun(f, 0);
    var s := Stem(f);
    assert SearchStart(f) == Some(0);
    assert s == Group(f);
    if a == 0 {
      ParseUnsigned(s);
    } else if a == 1 {
      assert s == "-" + s[1..];
      ParseNegative(s[1..]);
    } else {
      ParseIntDoubleMinus(s);
    }
  }

  lemma ParseIntRejects(s: string, k: nat)
    requires k < |s| && !IsDigit(s[k]) && s[k] != '-' && s[k] != '+'
    ensures ParseInt(s) == None
  {
    if |s| > 0 && (s[0] == '-' || s[0] == '+') {
      assert s[1..][k - 1] == s[k];
    }
  }

  /** A name made of an integer literal (at most one `-`, then digits) and
      `.jpg` is counted, its search match is the literal, and so is its stem. */
  lemma NumberNameMatches(s: string)
    requires |s| >= 1
    requires AllDigits(s) || (|s| >= 2 && s[0] == '-' && AllDigits(s[1..]))
    ensures Matches(s + EXTENSION) && SearchStart(s + EXTENSION) == Some(0)
    ensures Group(s + EXTENSION) == s && Stem(s + EXTENSION) == s
  {
    var f := s + EXTENSION;
    var a := if AllDigits(s) then 0 else 1;
    forall k | a <= k < |s| ensures IsDigit(f[k]) {
      if a == 1 { assert s[1..][k - 1] == s[k]; }
    }
    assert PatternAt(f, 0, a, |s|);
    MatchEndComplete(f, 0);
    MatchesSpec(f);
    assert f[..|s|] == s;
  }

  /** `glob("*.jpg")` on a directory: names ending in `.jpg`, hidden names
      (those starting with `.`) excluded. */
  predicate GlobJpg(f: string)
  {
    |f| >= 4 && f[|f| - 4..] == EXTENSION && f[0] != '.'
  }

  /** `"jpg" in f`. */
  predicate ContainsJpg(f: string)
  {
    exists k :: 0 <= k <= |f| - 3 && JpgAt(f, k)
  }

  predicate JpgAt(f: string, k: int)
    requires 0 <= k <= |f| - 3
  {
    f[k..k + 3] == "jpg"
  }
}
