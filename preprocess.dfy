/** The two tools of data_preprocess.py. `sync_timestamp` renames the frames
    of a folder after their timestamps, shifted so that the smallest counted
    one becomes `offset` and written eight wide; `color_correction` swaps
    channels 0 and 2 of every frame. A folder is a map from file names to
    contents; `os.listdir` is its key set and `sorted(os.listdir(...))` the
    keys in code-point order. */
module Preprocess {
  import opened PyBuiltins
  import opened FrameNames

  /** The module-level `offset` as the source sets it. The operations take
      the offset as a parameter, so what is proved holds for every setting. */
  const OFFSET: int := 0

  /** The marker `sync_timestamp` touches once every frame is renamed. */
  const SYNCED: string := ".synced"

  /** One pixel: the three channels of an RGB frame. */
  datatype Pixel = Pixel(ch0: int, ch1: int, ch2: int)

  /** A frame, its pixels in row-major order. */
  type Image = seq<Pixel>

  // ---------------------------------------------------------------------------
  // sync_timestamp: the names

  /** The names the counting comprehension keeps: an anchored match. */
  function CountedNames(names: seq<string>): (r: seq<string>)
    ensures |r| <= |names|
  {
    if names == [] then []
    else (if Matches(names[0]) then [names[0]] else []) + CountedNames(names[1..])
  }

  /** The filter keeps exactly the names the anchored match accepts. */
  lemma {:induction false} CountedNamesSpec(names: seq<string>)
    ensures forall x :: x in CountedNames(names) <==> x in names && Matches(x)
    decreases |names|
  {
    if names != [] {
      CountedNamesSpec(names[1..]);
      assert names == [names[0]] + names[1..];
    }
  }

  /** `timestamp_list`: `int(name[:-4])` of every counted name, None when one
      of them raises ValueError. */
  function CountedStamps(names: set<string>): (r: Option<seq<int>>)
    ensures r.Some? ==> |r.value| <= |names|
  {
    ParseStems(CountedNames(SortedNames(names)))
  }

  /** The comprehension raises exactly when some counted name's stem is not
      an integer; otherwise it holds one timestamp per counted name, and the
      timestamp of every counted name is among them. */
  lemma CountedStampsSpec(names: set<string>)
    ensures CountedStamps(names).Some?
            <==> forall f :: f in names && Matches(f) ==> ParseInt(Stem(f)).Some?
    ensures CountedStamps(names).Some?
            ==> |CountedStamps(names).value| == |CountedNames(SortedNames(names))|
                && forall f :: f in names && Matches(f) ==> ParseInt(Stem(f)).value in CountedStamps(names).value
  {
    var counted := CountedNames(SortedNames(names));
    CountedNamesSpec(SortedNames(names));
    ParseStemsSpec(counted);
    if CountedStamps(names).Some? {
      var ts := CountedStamps(names).value;
      forall f | f in names && Matches(f) ensures ParseInt(Stem(f)).Some? && ParseInt(Stem(f)).value in ts {
        assert f in counted;
        var k :| 0 <= k < |counted| && counted[k] == f;
        assert ts[k] == ParseInt(Stem(f)).value;
      }
    } else {
      var k :| 0 <= k < |counted| && ParseInt(Stem(counted[k])).None?;
      assert counted[k] in counted;
    }
  }

  /** Every timestamp of the list is the timestamp of a counted name. */
  lemma CountedStampsFromNames(names: set<string>, t: int)
    requires CountedStamps(names).Some? && t in CountedStamps(names).value
    ensures exists f :: f in names && Matches(f) && ParseInt(Stem(f)) == Some(t)
  {
    var counted := CountedNames(SortedNames(names));
    CountedNamesSpec(SortedNames(names));
    ParseStemsSpec(counted);
    var ts := CountedStamps(names).value;
    var k :| 0 <= k < |ts| && ts[k] == t;
    assert counted[k] in counted;
  }

  /** `f'{v:08}.jpg'`, the name a frame with shifted timestamp v gets. */
  function Target(v: int): (name: string)
    ensures |name| >= 12
  {
    ZeroPadded(v, 8) + EXTENSION
  }

  /** A renamed frame is found again: its new name is counted, and both the
      counting pass and the renaming loop read v back from it. */
  lemma TargetRoundTrip(v: int)
    ensures Matches(Target(v)) && SearchStart(Target(v)) == Some(0)
    ensures ParseInt(Group(Target(v))) == Some(v)
    ensures ParseInt(Stem(Target(v))) == Some(v)
  {
    ZeroPaddedShape(v, 8);
    NumberNameMatches(ZeroPadded(v, 8));
    ZeroPaddedRoundTrip(v, 8);
  }

  /** Distinct shifted timestamps get distinct names. */
  lemma TargetInjective(v: int, w: int)
    ensures Target(v) == Target(w) <==> v == w
  {
    TargetRoundTrip(v);
    TargetRoundTrip(w);
  }

  /** While they fit in eight digits, the new names sort as the shifted
      timestamps do. */
  lemma TargetOrder(v: int, w: int)
    requires 0 <= v < 100000000 && 0 <= w < 100000000
    ensures LexLe(Target(v), Target(w)) <==> v <= w
  {
    ZeroPaddedEightDigits(v);
    ZeroPaddedEightDigits(w);
    ZeroPaddedRoundTrip(v, 8);
    ZeroPaddedRoundTrip(w, 8);
    ParseUnsigned(ZeroPadded(v, 8));
    ParseUnsigned(ZeroPadded(w, 8));
    DigitsLexOrder(ZeroPadded(v, 8), ZeroPadded(w, 8));
    LexLeCommonSuffix(ZeroPadded(v, 8), ZeroPadded(w, 8), EXTENSION);
  }

  /** With offset 0 the earliest counted frame is renamed `00000000.jpg`. */
  lemma MinimumName()
    ensures Target(OFFSET) == "00000000.jpg"
  {
    assert DecimalDigits(0) == "0";
    assert Zeros(7) == "0000000";
  }

  // ---------------------------------------------------------------------------
  // sync_timestamp: the folder

  /** `os.rename(src, dst)`, which silently replaces an existing `dst`. */
  function Rename(files: map<string, Image>, src: string, dst: string): (r: map<string, Image>)
    requires src in files
  {
    (files - {src})[dst := files[src]]
  }

  /** After a rename the old name is gone unless it is the new one, the new
      name holds the moved contents, and every other file is as it was. */
  lemma RenameEffect(files: map<string, Image>, src: string, dst: string)
    requires src in files
    ensures Rename(files, src, dst).Keys == files.Keys - {src} + {dst}
    ensures Rename(files, src, dst)[dst] == files[src]
    ensures forall f :: f in files && f != src && f != dst ==> Rename(files, src, dst)[f] == files[f]
  {
  }

  /** `touch`: create an empty file if there is none, else leave it be. */
  function Touch(files: map<string, Image>, name: string): (r: map<string, Image>)
    ensures r.Keys == files.Keys + {name}
    ensures forall f :: f in files ==> r[f] == files[f]
    ensures name !in files ==> r[name] == []
  {
    if name in files then files else files[name := []]
  }

  /** The names of a listing are pairwise different and all in the folder. */
  ghost predicate Listing(files: map<string, Image>, names: seq<string>)
  {
    && (forall k :: 0 <= k < |names| ==> names[k] in files)
    && (forall j, k :: 0 <= j < k < |names| ==> names[j] != names[k])
  }

  /** Renaming the first name of a listing leaves the rest a listing. */
  lemma ListingAfterRename(files: map<string, Image>, names: seq<string>, dst: string)
    requires Listing(files, names) && names != []
    ensures Listing(Rename(files, names[0], dst), names[1..])
  {
    var r := Rename(files, names[0], dst);
    RenameEffect(files, names[0], dst);
    forall k | 0 <= k < |names[1..]| ensures names[1..][k] in r {
      assert names[1..][k] == names[k + 1] != names[0];
    }
  }

  /** The sorted listing of a folder is a listing of it. */
  lemma SortedListing(files: map<string, Image>)
    ensures Listing(files, SortedNames(files.Keys))
  {
    var names := SortedNames(files.Keys);
    SortedNamesSorted(files.Keys);
    forall k | 0 <= k < |names| ensures names[k] in files {
      assert names[k] in names;
    }
  }

  /** How far the renaming loop got: the folder, the progress ticks, and the
      exception that stopped it, if any. */
  datatype Pass = Pass(files: map<string, Image>, advanced: nat, error: Option<PyError>)

  /** What the renaming loop does with one name. */
  datatype Step = Skip | Raise(error: PyError) | MoveTo(target: string)

  /** One iteration of the renaming loop: a name the search does not find is
      skipped; otherwise t = int(m.group(0)), which raises ValueError on a
      group with two dashes or more, and the file moves to
      Target(t - min_t + offset). */
  function Plan(f: string, minT: int, offset: int): (s: Step)
    ensures s.Skip? <==> SearchStart(f).None?
    ensures s.Raise? ==> s.error == ValueError
  {
    if SearchStart(f).None? then Skip
    else
      match ParseInt(Group(f))
      case None => Raise(ValueError)
      case Some(t) => MoveTo(Target(t - minT + offset))
  }

  /** A found name whose group int() reads moves after that value. */
  lemma PlanMoves(f: string, minT: int, offset: int)
    requires SearchStart(f).Some? && ParseInt(Group(f)).Some?
    ensures Plan(f, minT, offset) == MoveTo(Target(ParseInt(Group(f)).value - minT + offset))
  {
  }

  /** Every name a file moves to is one the search finds. */
  lemma PlanTargetFound(f: string, minT: int, offset: int)
    ensures Plan(f, minT, offset).MoveTo? ==> SearchStart(Plan(f, minT, offset).target).Some?
  {
    if Plan(f, minT, offset).MoveTo? {
      TargetRoundTrip(ParseInt(Group(f)).value - minT + offset);
    }
  }

  /** One name makes the loop raise exactly when the search finds it and its
      group starts with two dashes. */
  lemma PlanRaises(f: string, minT: int, offset: int)
    ensures Plan(f, minT, offset).Raise?
            <==> SearchStart(f).Some? && |Group(f)| >= 2 && Group(f)[0] == '-' && Group(f)[1] == '-'
  {
    if SearchStart(f).Some? {
      GroupParses(f);
    }
  }

  /** The renaming loop over `names`, from a folder and `advanced` ticks of
      the progress bar. */
  function RenamePass(files: map<string, Image>, names: seq<string>, minT: int, offset: int, advanced: nat): (p: Pass)
    requires Listing(files, names)
    ensures advanced <= p.advanced <= advanced + |names|
    decreases |names|
  {
    if names == [] then Pass(files, advanced, None)
    else
      match Plan(names[0], minT, offset)
      case Skip => RenamePass(files, names[1..], minT, offset, advanced)
      case Raise(e) => Pass(files, advanced, Some(e))
      case MoveTo(dst) =>
        ListingAfterRename(files, names, dst);
        RenamePass(Rename(files, names[0], dst), names[1..], minT, offset, advanced + 1)
  }

  /** One iteration of the renaming loop, unfolded. */
  lemma PassStep(files: map<string, Image>, names: seq<string>, minT: int, offset: int, advanced: nat)
    requires Listing(files, names) && names != []
    ensures Plan(names[0], minT, offset).Skip?
            ==> Listing(files, names[1..])
                && RenamePass(files, names, minT, offset, advanced) == RenamePass(files, names[1..], minT, offset, advanced)
    ensures Plan(names[0], minT, offset).Raise?
            ==> RenamePass(files, names, minT, offset, advanced) == Pass(files, advanced, Some(ValueError))
    ensures Plan(names[0], minT, offset).MoveTo?
            ==> var dst := Plan(names[0], minT, offset).target;
                Listing(Rename(files, names[0], dst), names[1..])
                && RenamePass(files, names, minT, offset, advanced)
                   == RenamePass(Rename(files, names[0], dst), names[1..], minT, offset, advanced + 1)
  {
    if Plan(names[0], minT, offset).MoveTo? {
      ListingAfterRename(files, names, Plan(names[0], minT, offset).target);
    }
  }

  /** The loop skips a name the search does not find. */
  lemma SkipStep(files: map<string, Image>, names: seq<string>, minT: int, offset: int, advanced: nat)
    requires Listing(files, names) && names != [] && SearchStart(names[0]).None?
    ensures Listing(files, names[1..])
    ensures RenamePass(files, names, minT, offset, advanced) == RenamePass(files, names[1..], minT, offset, advanced)
  {
    PassStep(files, names, minT, offset, advanced);
  }

  /** The loop stops with ValueError at a found name whose group int()
      rejects. */
  lemma RaiseStep(files: map<string, Image>, names: seq<string>, minT: int, offset: int, advanced: nat)
    requires Listing(files, names) && names != []
    requires SearchStart(names[0]).Some? && ParseInt(Group(names[0])).None?
    ensures RenamePass(files, names, minT, offset, advanced) == Pass(files, advanced, Some(ValueError))
  {
  }

  /** The loop moves a found name whose group int() reads, then goes on. */
  lemma MoveStep(files: map<string, Image>, names: seq<string>, minT: int, offset: int, advanced: nat, dst: string)
    requires Listing(files, names) && names != []
    requires SearchStart(names[0]).Some? && ParseInt(Group(names[0])).Some?
    requires dst == Target(ParseInt(Group(names[0])).value - minT + offset)
    ensures Listing(Rename(files, names[0], dst), names[1..])
    ensures RenamePass(files, names, minT, offset, advanced)
            == RenamePass(Rename(files, names[0], dst), names[1..], minT, offset, advanced + 1)
  {
    PlanMoves(names[0], minT, offset);
    PassStep(files, names, minT, offset, advanced);
  }

  /** How a call of `sync_timestamp` ends. */
  datatype Outcome = Done | Cancelled | Failed(error: PyError)

  /** What a call leaves behind: how it ended, the folder, the global `min_t`,
      and the progress bar's total and ticks. */
  datatype SyncRun = SyncRun(outcome: Outcome, files: map<string, Image>, minT: Option<int>,
                             total: nat, advanced: nat)

  /** `sync_timestamp` on a folder, with the global `min_t` as it was, the
      module's `offset` and the answer to the prompt: the counting
      comprehension (ValueError from `int()`), `min` (ValueError on an empty
      list), then `min_t` is set, then anything but `y`/`Y` exits, then the
      renaming loop, then the marker. */
  function SyncResult(files: map<string, Image>, minT: Option<int>, offset: int, answer: string): (r: SyncRun)
    ensures r.outcome == Cancelled ==> r.files == files && r.advanced == 0
    ensures r.outcome == Done ==> SYNCED in r.files && r.minT.Some?
  {
    match CountedStamps(files.Keys)
    case None => SyncRun(Failed(ValueError), files, minT, 0, 0)
    case Some(ts) =>
      if ts == [] then SyncRun(Failed(ValueError), files, minT, 0, 0)
      else if answer != "y" && answer != "Y" then SyncRun(Cancelled, files, Some(MinOf(ts)), 0, 0)
      else Finish(files, MinOf(ts), offset, |ts|)
  }

  /** The confirmed part of a run: the renaming loop over the sorted names
      with `min_t` = m and a progress total of `total`, then the marker. */
  function Finish(files: map<string, Image>, m: int, offset: int, total: nat): (r: SyncRun)
    ensures r.minT == Some(m) && r.total == total && r.outcome != Cancelled
    ensures r.outcome == Done ==> SYNCED in r.files
  {
    SortedListing(files);
    Ended(RenamePass(files, SortedNames(files.Keys), m, offset, 0), m, total)
  }

  /** How a run ends once its renaming loop has stopped: with the exception
      that stopped it, or with the marker touched. */
  function Ended(p: Pass, m: int, total: nat): (r: SyncRun)
    ensures r.outcome == Done <==> p.error.None?
    ensures r.minT == Some(m) && r.total == total && r.advanced == p.advanced
  {
    match p.error
    case Some(e) => SyncRun(Failed(e), p.files, Some(m), total, p.advanced)
    case None => SyncRun(Done, Touch(p.files, SYNCED), Some(m), total, p.advanced)
  }

  // ---------------------------------------------------------------------------
  // sync_timestamp: what it guarantees

  /** Without a counted frame, or with a counted name `int()` rejects, the
      run raises ValueError before anything changes; otherwise the global
      `min_t` ends up the least counted timestamp, whatever the answer. */
  lemma SyncMinimum(files: map<string, Image>, minT: Option<int>, offset: int, answer: string)
    ensures var r := SyncResult(files, minT, offset, answer);
            CountedStamps(files.Keys).None? || CountedStamps(files.Keys) == Some([])
            ==> r.outcome == Failed(ValueError) && r.files == files && r.minT == minT
    ensures var r := SyncResult(files, minT, offset, answer);
            CountedStamps(files.Keys).Some? && CountedStamps(files.Keys) != Some([])
            ==> && r.minT == Some(MinOf(CountedStamps(files.Keys).value))
                && (forall f :: f in files && Matches(f) ==>
                      ParseInt(Stem(f)).Some? && r.minT.value <= ParseInt(Stem(f)).value)
  {
    CountedStampsSpec(files.Keys);
    match CountedStamps(files.Keys)
    case None =>
    case Some(ts) =>
      if ts != [] {
        var m := MinOf(ts);
        forall f | f in files && Matches(f) ensures ParseInt(Stem(f)).Some? && m <= ParseInt(Stem(f)).value {
          var k :| 0 <= k < |ts| && ts[k] == ParseInt(Stem(f)).value;
        }
      }
  }

  /** With the counted timestamps read and m their minimum, every counted
      name is planned to move to Target(v - m + offset) for its own
      timestamp v, and that shifted value is `offset` or above. */
  lemma CountedPlan(files: map<string, Image>, offset: int, f: string)
    requires CountedStamps(files.Keys).Some? && CountedStamps(files.Keys) != Some([])
    requires f in files && Matches(f)
    ensures var m := MinOf(CountedStamps(files.Keys).value);
            && ParseInt(Stem(f)).Some?
            && Plan(f, m, offset) == MoveTo(Target(ParseInt(Stem(f)).value - m + offset))
            && ParseInt(Stem(f)).value - m + offset >= offset
  {
    var ts := CountedStamps(files.Keys).value;
    CountedStampOf(files.Keys, f);
    var t := ParseInt(Stem(f)).value;
    var k :| 0 <= k < |ts| && ts[k] == t;
    assert MinOf(ts) <= t;
    PlanOfCounted(f, MinOf(ts), offset);
  }

  /** A counted name's timestamp is in the list. */
  lemma CountedStampOf(names: set<string>, f: string)
    requires CountedStamps(names).Some? && f in names && Matches(f)
    ensures ParseInt(Stem(f)).Some? && ParseInt(Stem(f)).value in CountedStamps(names).value
  {
    CountedStampsSpec(names);
  }

  /** A counted name whose stem int() reads is planned after that value. */
  lemma PlanOfCounted(f: string, m: int, offset: int)
    requires Matches(f) && ParseInt(Stem(f)).Some?
    ensures Plan(f, m, offset) == MoveTo(Target(ParseInt(Stem(f)).value - m + offset))
  {
    CountedStemParse(f);
    MatchesSpec(f);
    assert SearchStart(f).Some? && Group(f) == Stem(f);
  }

  /** The frame with the least counted timestamp is planned to move to
      Target(offset): `00000000.jpg` for the module's offset. */
  lemma LeastCountedName(files: map<string, Image>, offset: int)
    requires CountedStamps(files.Keys).Some? && CountedStamps(files.Keys) != Some([])
    ensures var m := MinOf(CountedStamps(files.Keys).value);
            exists f :: f in files && Matches(f) && Plan(f, m, offset) == MoveTo(Target(offset))
  {
    var m := MinOf(CountedStamps(files.Keys).value);
    CountedStampsFromNames(files.Keys, m);
    var f :| f in files && Matches(f) && ParseInt(Stem(f)) == Some(m);
    PlanOfCounted(f, m, offset);
    assert ParseInt(Stem(f)).value - m + offset == offset;
  }

  /** Between counted names the new names sort as the timestamps do, as
      long as the shifted timestamps fit in eight digits: `sorted` lists the
      synced frames in time order. */
  lemma CountedOrder(files: map<string, Image>, offset: int, f: string, g: string)
    requires CountedStamps(files.Keys).Some? && CountedStamps(files.Keys) != Some([])
    requires 0 <= offset
    requires forall t :: t in CountedStamps(files.Keys).value
                         ==> t - MinOf(CountedStamps(files.Keys).value) + offset < 100000000
    requires f in files && Matches(f) && g in files && Matches(g)
    ensures var m := MinOf(CountedStamps(files.Keys).value);
            && Plan(f, m, offset).MoveTo? && Plan(g, m, offset).MoveTo?
            && ParseInt(Stem(f)).Some? && ParseInt(Stem(g)).Some?
            && (LexLe(Plan(f, m, offset).target, Plan(g, m, offset).target)
                <==> ParseInt(Stem(f)).value <= ParseInt(Stem(g)).value)
  {
    var m := MinOf(CountedStamps(files.Keys).value);
    CountedPlan(files, offset, f);
    CountedPlan(files, offset, g);
    CountedStampsSpec(files.Keys);
    TargetOrder(ParseInt(Stem(f)).value - m + offset, ParseInt(Stem(g)).value - m + offset);
  }

  /** `os.rename` onto a name that is already taken loses the file that had
      it: the folder shrinks by one. */
  lemma RenameOverwrites(files: map<string, Image>, src: string, dst: string)
    requires src in files && dst in files && src != dst
    ensures |Rename(files, src, dst).Keys| == |files.Keys| - 1
    ensures Rename(files, src, dst)[dst] == files[src]
  {
    RenameEffect(files, src, dst);
    assert Rename(files, src, dst).Keys == files.Keys - {src};
  }

  /** Unless the answer is `y` or `Y`, no file is renamed or created. */
  lemma CancelKeepsFolder(files: map<string, Image>, minT: Option<int>, offset: int, answer: string)
    requires answer != "y" && answer != "Y"
    ensures SyncResult(files, minT, offset, answer).files == files
    ensures SyncResult(files, minT, offset, answer).outcome in {Cancelled, Failed(ValueError)}
  {
  }

  /** No name of the listing makes the loop raise. */
  ghost predicate NoRaise(names: seq<string>, minT: int, offset: int)
  {
    forall k :: 0 <= k < |names| ==> !Plan(names[k], minT, offset).Raise?
  }

  /** The loop stops with an exception exactly when one of its names
      raises, and that exception is a ValueError. */
  lemma {:induction false} RenamePassRaises(files: map<string, Image>, names: seq<string>, minT: int,
                                            offset: int, advanced: nat)
    requires Listing(files, names)
    ensures var p := RenamePass(files, names, minT, offset, advanced);
            (p.error.None? <==> NoRaise(names, minT, offset)) && (p.error.Some? ==> p.error == Some(ValueError))
    decreases |names|
  {
    if names != [] {
      PassStep(files, names, minT, offset, advanced);
      NoRaiseCons(names, minT, offset);
      match Plan(names[0], minT, offset)
      case Skip =>
        RenamePassRaises(files, names[1..], minT, offset, advanced);
      case Raise(_) =>
      case MoveTo(dst) =>
        RenamePassRaises(Rename(files, names[0], dst), names[1..], minT, offset, advanced + 1);
    }
  }

  /** A listing raises nowhere iff its first name does not and the rest
      raises nowhere. */
  lemma NoRaiseCons(names: seq<string>, minT: int, offset: int)
    requires names != []
    ensures NoRaise(names, minT, offset) <==> !Plan(names[0], minT, offset).Raise? && NoRaise(names[1..], minT, offset)
  {
    assert forall k :: 0 <= k < |names[1..]| ==> names[1..][k] == names[k + 1];
    if !Plan(names[0], minT, offset).Raise? && NoRaise(names[1..], minT, offset) {
      forall k | 0 <= k < |names| ensures !Plan(names[k], minT, offset).Raise? {
        if k > 0 { assert names[k] == names[1..][k - 1]; }
      }
    }
  }

  /** The names of a listing move to names of their own: no two to the
      same name, and none to the name of another file of the folder. */
  ghost predicate Collisionless(files: map<string, Image>, names: seq<string>, minT: int, offset: int)
  {
    && (forall j, k :: 0 <= j < |names| && 0 <= k < |names| && Plan(names[j], minT, offset).MoveTo?
                       && Plan(names[k], minT, offset).MoveTo?
                       && Plan(names[j], minT, offset).target == Plan(names[k], minT, offset).target
                       ==> j == k)
    && (forall k :: 0 <= k < |names| && Plan(names[k], minT, offset).MoveTo?
                    && Plan(names[k], minT, offset).target in files
                    ==> Plan(names[k], minT, offset).target == names[k])
  }

  /** Skipping or moving the first name keeps the rest of the listing
      collision-free. */
  lemma CollisionlessTail(files: map<string, Image>, names: seq<string>, minT: int, offset: int)
    requires Listing(files, names) && names != [] && Collisionless(files, names, minT, offset)
    ensures Plan(names[0], minT, offset).Skip? ==> Collisionless(files, names[1..], minT, offset)
    ensures Plan(names[0], minT, offset).MoveTo?
            ==> Collisionless(Rename(files, names[0], Plan(names[0], minT, offset).target), names[1..], minT, offset)
  {
    var rest := names[1..];
    assert forall k :: 0 <= k < |rest| ==> rest[k] == names[k + 1];
    if Plan(names[0], minT, offset).MoveTo? {
      var dst := Plan(names[0], minT, offset).target;
      var files1 := Rename(files, names[0], dst);
      RenameEffect(files, names[0], dst);
      forall k | 0 <= k < |rest| && Plan(rest[k], minT, offset).MoveTo? && Plan(rest[k], minT, offset).target in files1
        ensures Plan(rest[k], minT, offset).target == rest[k]
      {
        assert Plan(names[k + 1], minT, offset).target != dst;
      }
    }
  }

  /** The loop leaves a file where it is, with the same contents, when it
      does not move that file and moves no other file onto its name. */
  lemma {:induction false} RenamePassKeeps(files: map<string, Image>, names: seq<string>, minT: int, offset: int,
                                           advanced: nat, x: string)
    requires Listing(files, names) && x in files
    requires x in names ==> SearchStart(x).None?
    requires forall k :: 0 <= k < |names| && Plan(names[k], minT, offset).MoveTo?
                         ==> Plan(names[k], minT, offset).target != x
    ensures x in RenamePass(files, names, minT, offset, advanced).files
    ensures RenamePass(files, names, minT, offset, advanced).files[x] == files[x]
    decreases |names|
  {
    if names != [] {
      var g := names[0];
      var rest := names[1..];
      PassStep(files, names, minT, offset, advanced);
      assert forall k :: 0 <= k < |rest| ==> rest[k] == names[k + 1];
      match Plan(g, minT, offset)
      case Skip =>
        RenamePassKeeps(files, rest, minT, offset, advanced, x);
      case Raise(_) =>
      case MoveTo(dst) =>
        RenameEffect(files, g, dst);
        RenamePassKeeps(Rename(files, g, dst), rest, minT, offset, advanced + 1, x);
    }
  }

  /** The loop leaves a file the search does not find where it is, with the
      same contents: no new name can replace it, since every new name is
      found. */
  lemma RenamePassKeepsUnfound(files: map<string, Image>, names: seq<string>, minT: int, offset: int,
                               advanced: nat, f: string)
    requires Listing(files, names) && f in files && SearchStart(f).None?
    ensures f in RenamePass(files, names, minT, offset, advanced).files
    ensures RenamePass(files, names, minT, offset, advanced).files[f] == files[f]
  {
    forall k | 0 <= k < |names| && Plan(names[k], minT, offset).MoveTo?
      ensures Plan(names[k], minT, offset).target != f
    {
      PlanTargetFound(names[k], minT, offset);
    }
    RenamePassKeeps(files, names, minT, offset, advanced, f);
  }

  /** Where nothing raises and nothing collides, the contents of each moved
      file end up under its new name. */
  lemma {:induction false} RenamePassMoves(files: map<string, Image>, names: seq<string>, minT: int, offset: int,
                                           advanced: nat, k: nat)
    requires Listing(files, names) && NoRaise(names, minT, offset) && Collisionless(files, names, minT, offset)
    requires k < |names| && Plan(names[k], minT, offset).MoveTo?
    ensures var p := RenamePass(files, names, minT, offset, advanced);
            var dst := Plan(names[k], minT, offset).target;
            dst in p.files && p.files[dst] == files[names[k]]
    decreases |names|
  {
    if k == 0 {
      RenamePassMovesFirst(files, names, minT, offset, advanced);
    } else {
      var g := names[0];
      var rest := names[1..];
      PassStep(files, names, minT, offset, advanced);
      NoRaiseCons(names, minT, offset);
      CollisionlessTail(files, names, minT, offset);
      assert rest[k - 1] == names[k] && names[k] != g;
      if Plan(g, minT, offset).Skip? {
        RenamePassMoves(files, rest, minT, offset, advanced, k - 1);
      } else {
        var dst0 := Plan(g, minT, offset).target;
        RenameEffect(files, g, dst0);
        RenamePassMoves(Rename(files, g, dst0), rest, minT, offset, advanced + 1, k - 1);
      }
    }
  }

  /** The first name of a collision-free listing keeps its contents under
      its new name to the end of the loop: no later name moves onto it. */
  lemma RenamePassMovesFirst(files: map<string, Image>, names: seq<string>, minT: int, offset: int, advanced: nat)
    requires Listing(files, names) && Collisionless(files, names, minT, offset)
    requires names != [] && Plan(names[0], minT, offset).MoveTo?
    ensures var p := RenamePass(files, names, minT, offset, advanced);
            var dst := Plan(names[0], minT, offset).target;
            dst in p.files && p.files[dst] == files[names[0]]
  {
    var g := names[0];
    var rest := names[1..];
    var dst := Plan(g, minT, offset).target;
    PassStep(files, names, minT, offset, advanced);
    forall i | 0 <= i < |rest| ensures rest[i] != dst {
      assert rest[i] == names[i + 1] && names[i + 1] in files && names[i + 1] != g;
    }
    forall i | 0 <= i < |rest| && Plan(rest[i], minT, offset).MoveTo?
      ensures Plan(rest[i], minT, offset).target != dst
    {
      assert rest[i] == names[i + 1];
    }
    RenamePassKeeps(Rename(files, g, dst), rest, minT, offset, advanced + 1, dst);
  }

  /** Where nothing raises, every name the loop leaves is either a file it
      kept or the new name of a file it moved. */
  lemma {:induction false} RenamePassNoOtherNames(files: map<string, Image>, names: seq<string>, minT: int,
                                                  offset: int, advanced: nat, x: string)
    requires Listing(files, names) && NoRaise(names, minT, offset)
    requires x in RenamePass(files, names, minT, offset, advanced).files
    ensures || (x in files && (x !in names || SearchStart(x).None?))
            || exists k :: 0 <= k < |names| && Plan(names[k], minT, offset).MoveTo?
                           && Plan(names[k], minT, offset).target == x
    decreases |names|
  {
    if names != [] {
      var g := names[0];
      var rest := names[1..];
      PassStep(files, names, minT, offset, advanced);
      NoRaiseCons(names, minT, offset);
      assert names == [g] + rest;
      match Plan(g, minT, offset)
      case Skip =>
        RenamePassNoOtherNames(files, rest, minT, offset, advanced, x);
        if !(x in files && (x !in rest || SearchStart(x).None?)) {
          var k :| 0 <= k < |rest| && Plan(rest[k], minT, offset).MoveTo? && Plan(rest[k], minT, offset).target == x;
          assert names[k + 1] == rest[k];
        }
      case MoveTo(dst) =>
        RenameEffect(files, g, dst);
        RenamePassNoOtherNames(Rename(files, g, dst), rest, minT, offset, advanced + 1, x);
        if x == dst {
          assert Plan(names[0], minT, offset).target == x;
        } else if !(x in Rename(files, g, dst) && (x !in rest || SearchStart(x).None?)) {
          var k :| 0 <= k < |rest| && Plan(rest[k], minT, offset).MoveTo? && Plan(rest[k], minT, offset).target == x;
          assert names[k + 1] == rest[k];
        }
    }
  }

  /** A loop over a listing in which nothing raises and nothing collides
      ends without error, holding each file it does not move unchanged,
      the contents of each file it moves under that file's new name, and
      no other name. */
  lemma RenamePassResult(files: map<string, Image>, names: seq<string>, minT: int, offset: int, advanced: nat)
    requires Listing(files, names) && NoRaise(names, minT, offset) && Collisionless(files, names, minT, offset)
    ensures var p := RenamePass(files, names, minT, offset, advanced);
            && p.error.None?
            && (forall x :: x in p.files
                            <==> || (x in files && (x !in names || SearchStart(x).None?))
                                 || exists k :: 0 <= k < |names| && Plan(names[k], minT, offset).MoveTo?
                                                && Plan(names[k], minT, offset).target == x)
            && (forall x :: x in files && (x !in names || SearchStart(x).None?) ==> p.files[x] == files[x])
            && (forall k :: 0 <= k < |names| && Plan(names[k], minT, offset).MoveTo?
                            ==> p.files[Plan(names[k], minT, offset).target] == files[names[k]])
  {
    var p := RenamePass(files, names, minT, offset, advanced);
    RenamePassRaises(files, names, minT, offset, advanced);
    forall x | x in files && (x !in names || SearchStart(x).None?)
      ensures x in p.files && p.files[x] == files[x]
    {
      forall k | 0 <= k < |names| && Plan(names[k], minT, offset).MoveTo?
        ensures Plan(names[k], minT, offset).target != x
      {
        assert Plan(names[k], minT, offset).target in files
               ==> Plan(names[k], minT, offset).target == names[k];
      }
      RenamePassKeeps(files, names, minT, offset, advanced, x);
    }
    forall k | 0 <= k < |names| && Plan(names[k], minT, offset).MoveTo?
      ensures Plan(names[k], minT, offset).target in p.files
              && p.files[Plan(names[k], minT, offset).target] == files[names[k]]
    {
      RenamePassMoves(files, names, minT, offset, advanced, k);
    }
    forall x | x in p.files
      ensures || (x in files && (x !in names || SearchStart(x).None?))
              || exists k :: 0 <= k < |names| && Plan(names[k], minT, offset).MoveTo?
                             && Plan(names[k], minT, offset).target == x
    {
      RenamePassNoOtherNames(files, names, minT, offset, advanced, x);
    }
  }

  /** Every found file of the folder gets a new name of its own: no two
      found files share one, and none is the name of another file. */
  ghost predicate NewNamesDistinct(files: map<string, Image>, m: int, offset: int)
  {
    && (forall g, h :: g in files && h in files && Plan(g, m, offset).MoveTo? && Plan(h, m, offset).MoveTo?
                       && Plan(g, m, offset).target == Plan(h, m, offset).target
                       ==> g == h)
    && (forall g :: g in files && Plan(g, m, offset).MoveTo? && Plan(g, m, offset).target in files
                    ==> Plan(g, m, offset).target == g)
  }

  /** A folder whose new names are distinct gives a listing without
      collisions. */
  lemma SortedCollisionless(files: map<string, Image>, m: int, offset: int)
    requires NewNamesDistinct(files, m, offset)
    ensures Listing(files, SortedNames(files.Keys))
    ensures Collisionless(files, SortedNames(files.Keys), m, offset)
  {
    var names := SortedNames(files.Keys);
    SortedListing(files);
    SortedNamesSorted(files.Keys);
    forall j, k | 0 <= j < |names| && 0 <= k < |names| && Plan(names[j], m, offset).MoveTo?
                  && Plan(names[k], m, offset).MoveTo?
                  && Plan(names[j], m, offset).target == Plan(names[k], m, offset).target
      ensures j == k
    {
      assert names[j] == names[k];
    }
  }

  /** The renaming loop over the sorted names of a folder whose new names
      are distinct and where no found group raises ends without error, and
      the contents of each found file g are then under
      Target(int(group(g)) - m + offset). */
  lemma SortedPassMoves(files: map<string, Image>, m: int, offset: int)
    requires NewNamesDistinct(files, m, offset)
    requires NoRaise(SortedNames(files.Keys), m, offset)
    ensures Listing(files, SortedNames(files.Keys))
    ensures var p := RenamePass(files, SortedNames(files.Keys), m, offset, 0);
            && p.error.None?
            && forall g :: g in files && SearchStart(g).Some?
                           ==> && ParseInt(Group(g)).Some?
                               && Target(ParseInt(Group(g)).value - m + offset) in p.files
                               && p.files[Target(ParseInt(Group(g)).value - m + offset)] == files[g]
  {
    SortedListing(files);
    var names := SortedNames(files.Keys);
    forall g | g in files && SearchStart(g).Some?
      ensures && ParseInt(Group(g)).Some?
              && Target(ParseInt(Group(g)).value - m + offset) in RenamePass(files, names, m, offset, 0).files
              && RenamePass(files, names, m, offset, 0).files[Target(ParseInt(Group(g)).value - m + offset)] == files[g]
    {
      SortedPassMovesOne(files, m, offset, g);
    }
    RenamePassRaises(files, names, m, offset, 0);
  }

  /** The same, for one found file. */
  lemma SortedPassMovesOne(files: map<string, Image>, m: int, offset: int, g: string)
    requires NewNamesDistinct(files, m, offset)
    requires NoRaise(SortedNames(files.Keys), m, offset)
    requires g in files && SearchStart(g).Some?
    ensures Listing(files, SortedNames(files.Keys))
    ensures ParseInt(Group(g)).Some?
    ensures var p := RenamePass(files, SortedNames(files.Keys), m, offset, 0);
            var dst := Target(ParseInt(Group(g)).value - m + offset);
            dst in p.files && p.files[dst] == files[g]
  {
    var names := SortedNames(files.Keys);
    SortedCollisionless(files, m, offset);
    var k :| 0 <= k < |names| && names[k] == g;
    assert !Plan(g, m, offset).Raise?;
    PlanMoves(g, m, offset);
    RenamePassMoves(files, names, m, offset, 0, k);
  }

  /** In the same run each file the search does not find is kept. */
  lemma SortedPassKeeps(files: map<string, Image>, m: int, offset: int)
    requires NewNamesDistinct(files, m, offset)
    requires NoRaise(SortedNames(files.Keys), m, offset)
    ensures Listing(files, SortedNames(files.Keys))
    ensures var p := RenamePass(files, SortedNames(files.Keys), m, offset, 0);
            forall f :: f in files && SearchStart(f).None? ==> f in p.files && p.files[f] == files[f]
  {
    SortedCollisionless(files, m, offset);
    RenamePassResult(files, SortedNames(files.Keys), m, offset, 0);
  }

  /** In the same run the folder ends up holding exactly the files the
      search does not find and the new names of the found ones. */
  lemma SortedPassNames(files: map<string, Image>, m: int, offset: int)
    requires NewNamesDistinct(files, m, offset)
    requires NoRaise(SortedNames(files.Keys), m, offset)
    ensures Listing(files, SortedNames(files.Keys))
    ensures var p := RenamePass(files, SortedNames(files.Keys), m, offset, 0);
            forall x :: x in p.files
                        <==> || (x in files && SearchStart(x).None?)
                             || exists g :: g in files && SearchStart(g).Some? && ParseInt(Group(g)).Some?
                                            && Target(ParseInt(Group(g)).value - m + offset) == x
  {
    var names := SortedNames(files.Keys);
    SortedPassMoves(files, m, offset);
    SortedPassKeeps(files, m, offset);
    var p := RenamePass(files, names, m, offset, 0);
    forall x | x in p.files
      ensures || (x in files && SearchStart(x).None?)
              || exists g :: g in files && SearchStart(g).Some? && ParseInt(Group(g)).Some?
                             && Target(ParseInt(Group(g)).value - m + offset) == x
    {
      RenamePassNoOtherNames(files, names, m, offset, 0, x);
      if !(x in files && (x !in names || SearchStart(x).None?)) {
        var k :| 0 <= k < |names| && Plan(names[k], m, offset).MoveTo? && Plan(names[k], m, offset).target == x;
        var g := names[k];
        assert g in files && SearchStart(g).Some? && ParseInt(Group(g)).Some?;
        PlanMoves(g, m, offset);
      }
    }
  }

  /** A confirmed run that ends `Done` over a folder whose new names are
      distinct: afterwards the folder holds each file the search does not
      find, unchanged; the contents of each found file g under
      Target(int(group(g)) - m + offset); the marker; and no other name. */
  lemma FinishDone(files: map<string, Image>, m: int, offset: int, total: nat)
    requires Finish(files, m, offset, total).outcome == Done
    requires NewNamesDistinct(files, m, offset)
    ensures var r := Finish(files, m, offset, total).files;
            && (forall g :: g in files && SearchStart(g).Some?
                            ==> && ParseInt(Group(g)).Some?
                                && Target(ParseInt(Group(g)).value - m + offset) in r
                                && r[Target(ParseInt(Group(g)).value - m + offset)] == files[g])
            && (forall f :: f in files && SearchStart(f).None? ==> f in r && r[f] == files[f])
            && (forall x :: x in r
                            <==> || x == SYNCED
                                 || (x in files && SearchStart(x).None?)
                                 || exists g :: g in files && SearchStart(g).Some? && ParseInt(Group(g)).Some?
                                                && Target(ParseInt(Group(g)).value - m + offset) == x)
  {
    var names := SortedNames(files.Keys);
    SortedListing(files);
    RenamePassRaises(files, names, m, offset, 0);
    SortedPassMoves(files, m, offset);
    SortedPassKeeps(files, m, offset);
    SortedPassNames(files, m, offset);
    var p := RenamePass(files, names, m, offset, 0);
    assert Finish(files, m, offset, total).files == Touch(p.files, SYNCED);
  }

  /** A run of `sync_timestamp` that ends `Done` (the answer was `y`, every
      counted stem and every found group was read by int()), over a folder
      whose new names are distinct, with m the `min_t` it set: each file the
      search does not find is kept, the contents of each found file g are
      under Target(int(group(g)) - m + offset), the marker exists, and no
      other name does. */
  lemma SyncDone(files: map<string, Image>, minT: Option<int>, offset: int, answer: string, m: int)
    requires SyncResult(files, minT, offset, answer).outcome == Done
    requires SyncResult(files, minT, offset, answer).minT == Some(m)
    requires NewNamesDistinct(files, m, offset)
    ensures var r := SyncResult(files, minT, offset, answer).files;
            && (forall g :: g in files && SearchStart(g).Some?
                            ==> && ParseInt(Group(g)).Some?
                                && Target(ParseInt(Group(g)).value - m + offset) in r
                                && r[Target(ParseInt(Group(g)).value - m + offset)] == files[g])
            && (forall f :: f in files && SearchStart(f).None? ==> f in r && r[f] == files[f])
            && (forall x :: x in r
                            <==> || x == SYNCED
                                 || (x in files && SearchStart(x).None?)
                                 || exists g :: g in files && SearchStart(g).Some? && ParseInt(Group(g)).Some?
                                                && Target(ParseInt(Group(g)).value - m + offset) == x)
  {
    var ts := CountedStamps(files.Keys).value;
    FinishDone(files, m, offset, |ts|);
  }

  /** A collision loses a frame. `00000001.jpg` and `1.jpg` both hold
      timestamp 1 and `2.jpg` holds 2; with min_t = 1 and offset 0 the loop
      over them, in sorted order, moves the first to `00000000.jpg`,
      the second onto the same name, and the third to `00000001.jpg`: it
      ends without error, three ticks and two files, and the contents of
      the first file are gone. */
  lemma CollisionExample(a: Image, b: Image, c: Image)
    ensures Listing(map["00000001.jpg" := a, "1.jpg" := b, "2.jpg" := c], ["00000001.jpg", "1.jpg", "2.jpg"])
    ensures SortedNames(map["00000001.jpg" := a, "1.jpg" := b, "2.jpg" := c].Keys) == ["00000001.jpg", "1.jpg", "2.jpg"]
    ensures RenamePass(map["00000001.jpg" := a, "1.jpg" := b, "2.jpg" := c], ["00000001.jpg", "1.jpg", "2.jpg"], 1, 0, 0)
            == Pass(map["00000000.jpg" := b, "00000001.jpg" := c], 3, None)
  {
    var x, y, z := "00000001.jpg", "1.jpg", "2.jpg";
    var u, v := "00000000.jpg", "00000001.jpg";
    assert x[7] != u[7] && |y| != |u| && |z| != |u| && y[0] != z[0] && |z| != |v|;
    ExamplePlans();
    ThreeMoves(x, y, z, u, v, a, b, c);
    assert SortedNames(map[x := a, y := b, z := c].Keys) == [x, y, z] by { CollisionListingSorted(a, b, c); }
  }

  /** The three names of the collision example in `sorted()` order. */
  lemma CollisionListingSorted(a: Image, b: Image, c: Image)
    ensures SortedNames(map["00000001.jpg" := a, "1.jpg" := b, "2.jpg" := c].Keys)
            == ["00000001.jpg", "1.jpg", "2.jpg"]
  {
    var x, y, z := "00000001.jpg", "1.jpg", "2.jpg";
    assert LexLe(x, y) && LexLe(y, z) && LexLe(x, z);
    assert x[0] != y[0] && y[0] != z[0] && x[0] != z[0];
    assert map[x := a, y := b, z := c].Keys == {x, y, z};
    SortedNamesUnique(map[x := a, y := b, z := c].Keys, [x, y, z]);
  }

  /** The collision example with its names left symbolic: x and y move onto
      the same name u, then z moves to v. */
  lemma ThreeMoves(x: string, y: string, z: string, u: string, v: string, a: Image, b: Image, c: Image)
    requires x != y && x != z && y != z && u != v && u != y && u != z && v != z
    requires Plan(x, 1, 0) == MoveTo(u) && Plan(y, 1, 0) == MoveTo(u) && Plan(z, 1, 0) == MoveTo(v)
    ensures Listing(map[x := a, y := b, z := c], [x, y, z])
    ensures RenamePass(map[x := a, y := b, z := c], [x, y, z], 1, 0, 0) == Pass(map[u := b, v := c], 3, None)
  {
    var files := map[x := a, y := b, z := c];
    var names := [x, y, z];
    assert names[1..] == [y, z];
    FirstRename(x, y, z, u, a, b, c);
    ExampleMove(files, names, u, 0);
    LastTwoMoves(y, z, u, v, a, b, c);
  }

  /** The last two moves of the collision example. */
  lemma LastTwoMoves(y: string, z: string, u: string, v: string, a: Image, b: Image, c: Image)
    requires y != z && u != v && u != y && u != z && v != z
    requires Plan(y, 1, 0) == MoveTo(u) && Plan(z, 1, 0) == MoveTo(v)
    ensures Listing(map[u := a, y := b, z := c], [y, z])
    ensures RenamePass(map[u := a, y := b, z := c], [y, z], 1, 0, 1) == Pass(map[u := b, v := c], 3, None)
  {
    var files1 := map[u := a, y := b, z := c];
    var files2 := map[u := b, z := c];
    var files3 := map[u := b, v := c];
    assert Rename(files1, y, u) == files2;
    assert Rename(files2, z, v) == files3;
    assert [y, z][1..] == [z] && [z][1..] == [];
    ExampleMove(files1, [y, z], u, 1);
    ExampleMove(files2, [z], v, 2);
  }

  /** The folder after the first rename of the collision example. */
  lemma FirstRename(x: string, y: string, z: string, u: string, a: Image, b: Image, c: Image)
    requires x != y && x != z && y != z && u != y && u != z
    ensures Rename(map[x := a, y := b, z := c], x, u) == map[u := a, y := b, z := c]
  {
  }

  /** One move of the collision example's loop. */
  lemma ExampleMove(files: map<string, Image>, names: seq<string>, dst: string, advanced: nat)
    requires Listing(files, names) && names != [] && Plan(names[0], 1, 0) == MoveTo(dst)
    ensures Listing(Rename(files, names[0], dst), names[1..])
    ensures RenamePass(files, names, 1, 0, advanced) == RenamePass(Rename(files, names[0], dst), names[1..], 1, 0, advanced + 1)
  {
    PassStep(files, names, 1, 0, advanced);
  }

  /** The plans of the collision example. */
  lemma ExamplePlans()
    ensures Plan("00000001.jpg", 1, 0) == MoveTo("00000000.jpg")
    ensures Plan("1.jpg", 1, 0) == MoveTo("00000000.jpg")
    ensures Plan("2.jpg", 1, 0) == MoveTo("00000001.jpg")
  {
    assert "00000001" + EXTENSION == "00000001.jpg";
    assert "1" + EXTENSION == "1.jpg";
    assert "2" + EXTENSION == "2.jpg";
    MinimumName();
    TargetOne();
    PlanOfNumber("00000001", 1);
    PlanOfNumber("1", 1);
    PlanOfNumber("2", 2);
  }

  /** A plain number name moves after its value. */
  lemma PlanOfNumber(s: string, v: int)
    requires |s| >= 1 && AllDigits(s) && DigitsValue(s) == v
    ensures Plan(s + EXTENSION, 1, 0) == MoveTo(Target(v - 1))
  {
    var f := s + EXTENSION;
    NumberNameMatches(s);
    ParseUnsigned(s);
    assert ParseInt(Group(f)) == Some(v);
    assert Plan(f, 1, 0) == MoveTo(Target(v - 1 + 0));
  }

  lemma TargetOne()
    ensures Target(1) == "00000001.jpg" && DigitsValue("00000001") == 1
  {
    assert DecimalDigits(1) == "1";
    assert Zeros(7) == "0000000";
    assert Zeros(7) + "1" == "00000001";
    DigitsValueLeadingZeros(7, "1");
  }

  /** Files whose names the search does not find are untouched by
      `sync_timestamp`, however it ends. */
  lemma SyncKeepsUnfound(files: map<string, Image>, minT: Option<int>, offset: int, answer: string, f: string)
    requires f in files && SearchStart(f).None?
    ensures f in SyncResult(files, minT, offset, answer).files
    ensures SyncResult(files, minT, offset, answer).files[f] == files[f]
  {
    match CountedStamps(files.Keys)
    case None =>
    case Some(ts) =>
      if ts != [] && (answer == "y" || answer == "Y") {
        FinishKeepsUnfound(files, MinOf(ts), offset, |ts|, f);
      }
  }

  /** The confirmed part of a run keeps an unfound file; the marker never
      replaces an existing file. */
  lemma FinishKeepsUnfound(files: map<string, Image>, m: int, offset: int, total: nat, f: string)
    requires f in files && SearchStart(f).None?
    ensures f in Finish(files, m, offset, total).files && Finish(files, m, offset, total).files[f] == files[f]
  {
    SortedListing(files);
    var names := SortedNames(files.Keys);
    RenamePassKeepsUnfound(files, names, m, offset, 0, f);
  }

  /** The number of names in a listing that the search finds. */
  function FoundCount(names: seq<string>): (n: nat)
    ensures n <= |names|
  {
    if names == [] then 0
    else (if SearchStart(names[0]).Some? then 1 else 0) + FoundCount(names[1..])
  }

  /** A loop that runs to the end ticks once per name the search finds. */
  lemma {:induction false} RenamePassTicks(files: map<string, Image>, names: seq<string>, minT: int, offset: int,
                                           advanced: nat)
    requires Listing(files, names)
    ensures var p := RenamePass(files, names, minT, offset, advanced);
            p.error.None? ==> p.advanced == advanced + FoundCount(names)
    decreases |names|
  {
    if names != [] {
      var g := names[0];
      PassStep(files, names, minT, offset, advanced);
      match Plan(g, minT, offset)
      case Skip =>
        RenamePassTicks(files, names[1..], minT, offset, advanced);
      case Raise(_) =>
      case MoveTo(dst) =>
        RenamePassTicks(Rename(files, g, dst), names[1..], minT, offset, advanced + 1);
    }
  }

  /** A completed run ticks once per name the search finds, while its total
      is the number of counted names. */
  lemma SyncProgress(files: map<string, Image>, minT: Option<int>, offset: int, answer: string)
    requires SyncResult(files, minT, offset, answer).outcome == Done
    ensures SyncResult(files, minT, offset, answer).advanced == FoundCount(SortedNames(files.Keys))
    ensures SyncResult(files, minT, offset, answer).total == |CountedNames(SortedNames(files.Keys))|
  {
    var ts := CountedStamps(files.Keys).value;
    CountedStampsSpec(files.Keys);
    FinishTicks(files, MinOf(ts), offset, |ts|);
  }

  /** A confirmed run that completes ticks once per found name. */
  lemma FinishTicks(files: map<string, Image>, m: int, offset: int, total: nat)
    ensures Finish(files, m, offset, total).outcome == Done
            ==> Finish(files, m, offset, total).advanced == FoundCount(SortedNames(files.Keys))
  {
    SortedListing(files);
    RenamePassTicks(files, SortedNames(files.Keys), m, offset, 0);
  }

  // ---------------------------------------------------------------------------
  // color_correction

  /** A pixel with channels 0 and 2 exchanged. */
  function Swap(p: Pixel): (q: Pixel)
  {
    Pixel(p.ch2, p.ch1, p.ch0)
  }

  /** A frame with channels 0 and 2 exchanged in every pixel. */
  function SwapImage(img: Image): (r: Image)
  {
    seq(|img|, i requires 0 <= i < |img| => Swap(img[i]))
  }

  /** The corrected frame has the same shape, its channel 0 is the old
      channel 2, its channel 2 the old channel 0, and channel 1 is kept;
      correcting twice gives the frame back. */
  lemma SwapImageSpec(img: Image)
    ensures |SwapImage(img)| == |img|
    ensures forall i :: 0 <= i < |img| ==>
              SwapImage(img)[i].ch0 == img[i].ch2 && SwapImage(img)[i].ch1 == img[i].ch1
              && SwapImage(img)[i].ch2 == img[i].ch0
    ensures SwapImage(SwapImage(img)) == img
  {
  }

  /** `color_correction` on a folder: every file the search finds holds its
      frame with channels 0 and 2 exchanged; every other file is untouched. */
  function ColorCorrected(files: map<string, Image>): (r: map<string, Image>)
    ensures r.Keys == files.Keys
  {
    map f | f in files :: if SearchStart(f).Some? then SwapImage(files[f]) else files[f]
  }

  /** Color correction keeps the folder's names, leaves the files the search
      does not find as they were, and, on the pixel values it writes,
      undoes itself when run twice. */
  lemma ColorCorrectedSpec(files: map<string, Image>)
    ensures ColorCorrected(files).Keys == files.Keys
    ensures forall f :: f in files && SearchStart(f).None? ==> ColorCorrected(files)[f] == files[f]
    ensures ColorCorrected(ColorCorrected(files)) == files
  {
    forall f | f in files ensures ColorCorrected(ColorCorrected(files))[f] == files[f] {
      SwapImageSpec(files[f]);
    }
  }

  /** The folder once the names in `done` have been through the loop of
      `color_correction`. */
  function CorrectedOn(files: map<string, Image>, done: seq<string>): map<string, Image>
  {
    map f | f in files :: if f in done && SearchStart(f).Some? then SwapImage(files[f]) else files[f]
  }

  /** Overwriting a file of a listing keeps the rest of it a listing. */
  lemma ListingTail(files: map<string, Image>, names: seq<string>, img: Image)
    requires Listing(files, names) && names != []
    ensures Listing(files, names[1..])
    ensures Listing(files[names[0] := img], names[1..])
  {
    forall k | 0 <= k < |names[1..]| ensures names[1..][k] in files {
      assert names[1..][k] == names[k + 1];
    }
  }

  /** The loop of `color_correction` over `names`: each name the search
      finds has its frame corrected and saved under the same name. */
  function CorrectPass(files: map<string, Image>, names: seq<string>): (r: map<string, Image>)
    requires Listing(files, names)
    ensures r.Keys == files.Keys
    decreases |names|
  {
    if names == [] then files
    else
      var f := names[0];
      var next := if SearchStart(f).Some? then files[f := SwapImage(files[f])] else files;
      ListingTail(files, names, SwapImage(files[f]));
      CorrectPass(next, names[1..])
  }

  /** The loop over a listing corrects exactly the found frames it lists. */
  lemma {:induction false} CorrectPassSpec(files: map<string, Image>, names: seq<string>)
    requires Listing(files, names)
    ensures CorrectPass(files, names) == CorrectedOn(files, names)
    decreases |names|
  {
    if names != [] {
      var f := names[0];
      var next := if SearchStart(f).Some? then files[f := SwapImage(files[f])] else files;
      ListingTail(files, names, SwapImage(files[f]));
      CorrectPassSpec(next, names[1..]);
      FirstNotInRest(files, names);
      CorrectedOnFirst(files, names);
    }
  }

  /** Correcting the first name of a listing, then the rest, corrects the
      whole listing. */
  lemma CorrectedOnFirst(files: map<string, Image>, names: seq<string>)
    requires names != [] && names[0] in files && names[0] !in names[1..]
    ensures var f := names[0];
            var next := if SearchStart(f).Some? then files[f := SwapImage(files[f])] else files;
            CorrectedOn(next, names[1..]) == CorrectedOn(files, names)
  {
    var f := names[0];
    var next := if SearchStart(f).Some? then files[f := SwapImage(files[f])] else files;
    var lhs := CorrectedOn(next, names[1..]);
    var rhs := CorrectedOn(files, names);
    assert lhs.Keys == rhs.Keys;
    forall g | g in files ensures lhs[g] == rhs[g] {
      if g == f {
        assert g !in names[1..];
      } else {
        assert g in names <==> g in names[1..] by {
          assert names == [f] + names[1..];
        }
      }
    }
  }

  /** The first name of a listing does not come again. */
  lemma FirstNotInRest(files: map<string, Image>, names: seq<string>)
    requires Listing(files, names) && names != []
    ensures names[0] !in names[1..]
  {
    forall k | 0 <= k < |names[1..]| ensures names[1..][k] != names[0] {
      assert names[1..][k] == names[k + 1];
    }
  }

  /** With the whole sorted listing through the loop, the folder is
      color-corrected. */
  lemma CorrectedOnAll(files: map<string, Image>)
    ensures CorrectedOn(files, SortedNames(files.Keys)) == ColorCorrected(files)
  {
    CorrectedOnCovering(files, SortedNames(files.Keys));
  }

  /** Once every name of the folder has been through the loop, the folder
      is color-corrected. */
  lemma CorrectedOnCovering(files: map<string, Image>, done: seq<string>)
    requires forall f :: f in files ==> f in done
    ensures CorrectedOn(files, done) == ColorCorrected(files)
  {
  }

  /** A name without digits is never found by the search. */
  lemma NoDigitNotFound(f: string)
    requires forall k :: 0 <= k < |f| ==> !IsDigit(f[k])
    ensures SearchStart(f).None?
  {
    SearchSpec(f);
    forall i: nat, a: nat, d: nat | i <= |f| ensures !PatternAt(f, i, a, d) {
      if a < d <= |f| {
        assert !IsDigit(f[a]);
      }
    }
  }

  /** The progress bar of `color_correction` counts every file for its
      total but ticks only for the found ones: for a folder holding one
      frame and the marker the total is 2 and the bar stops at 1. */
  lemma ColorProgressExample(files: map<string, Image>)
    requires files.Keys == {"1.jpg", SYNCED}
    ensures |files.Keys| == 2
    ensures FoundCount(SortedNames(files.Keys)) == 1
  {
    var names := SortedNames(files.Keys);
    assert |files.Keys| == 2;
    assert "1.jpg" in names && SYNCED in names;
    ExampleListing(names);
  }

  /** Whatever their order, the frame and the marker give one tick. */
  lemma ExampleListing(names: seq<string>)
    requires |names| == 2 && "1.jpg" in names && SYNCED in names
    ensures FoundCount(names) == 1
  {
    ExampleNamesFound();
    var a, b := names[0], names[1];
    assert names == [a, b];
    assert names[1..] == [b] && names[1..][1..] == [];
  }

  /** The search finds `1.jpg` but not the marker. */
  lemma ExampleNamesFound()
    ensures SearchStart("1.jpg").Some? && SearchStart(SYNCED).None?
  {
    NumberNameMatches("1");
    assert "1" + EXTENSION == "1.jpg";
    NoDigitNotFound(SYNCED);
  }

  // ---------------------------------------------------------------------------
  // sync_timestamp as written

  class Folder {
    /** The folder's files by name. */
    var files: map<string, Image>
    /** The module-level `min_t`, None until a run gets as far as `min`. */
    var minT: Option<int>
    /** The module-level `offset`. */
    const offset: int

    constructor(files: map<string, Image>, offset: int)
      ensures this.files == files && minT == None && this.offset == offset
    {
      this.files := files;
      minT := None;
      this.offset := offset;
    }

    /** `sync_timestamp(path)`, the prompt answered by `answer`. */
    method SyncTimestamp(answer: string) returns (outcome: Outcome, total: nat, advanced: nat)
      modifies this
      ensures SyncRun(outcome, files, minT, total, advanced) == SyncResult(old(files), old(minT), offset, answer)
    {
      var stamps := CountedStamps(files.Keys);
      if stamps.None? || stamps.value == [] {
        return Failed(ValueError), 0, 0;
      }
      var m := MinOf(stamps.value);
      minT := Some(m);
      if answer != "y" && answer != "Y" {
        return Cancelled, 0, 0;
      }
      total := |stamps.value|;
      outcome, advanced := RenameFrames(m, total);
    }

    /** The confirmed part of `sync_timestamp`: the renaming loop over the
        sorted listing, ticking the progress bar once per found name, then
        the marker. */
    method RenameFrames(m: int, total: nat) returns (outcome: Outcome, advanced: nat)
      requires minT == Some(m)
      modifies this
      ensures SyncRun(outcome, files, minT, total, advanced) == Finish(old(files), m, offset, total)
    {
      var names := SortedNames(files.Keys);
      SortedListing(files);
      ghost var files0 := files;
      advanced := 0;
      var rest := names;
      while rest != []
        invariant minT == Some(m)
        invariant Listing(files, rest)
        invariant RenamePass(files, rest, m, offset, advanced) == RenamePass(files0, names, m, offset, 0)
        decreases |rest|
      {
        var raised;
        raised, advanced := RenameFirst(rest, m, advanced);
        if raised {
          return Failed(ValueError), advanced;
        }
        rest := rest[1..];
      }
      files := Touch(files, SYNCED);
      outcome := Done;
    }

    /** One turn of the renaming loop, on the first name left in the
        listing: skipped when the search misses, ValueError when `int()`
        rejects the group, otherwise renamed after its shifted timestamp. */
    method RenameFirst(rest: seq<string>, m: int, advanced: nat) returns (raised: bool, advanced': nat)
      requires Listing(files, rest) && rest != []
      modifies this
      ensures minT == old(minT)
      ensures raised ==> RenamePass(old(files), rest, m, offset, advanced) == Pass(files, advanced', Some(ValueError))
      ensures !raised ==> && Listing(files, rest[1..])
                          && RenamePass(old(files), rest, m, offset, advanced)
                             == RenamePass(files, rest[1..], m, offset, advanced')
    {
      if SearchStart(rest[0]).Some? {
        raised, advanced' := RenameFound(rest, m, advanced);
      } else {
        SkipStep(files, rest, m, offset, advanced);
        raised, advanced' := false, advanced;
      }
    }

    /** The turn of the loop for a name the search finds: `int()` of the
        group, then the rename (or the ValueError). */
    method RenameFound(rest: seq<string>, m: int, advanced: nat) returns (raised: bool, advanced': nat)
      requires Listing(files, rest) && rest != [] && SearchStart(rest[0]).Some?
      modifies this
      ensures minT == old(minT)
      ensures raised ==> RenamePass(old(files), rest, m, offset, advanced) == Pass(files, advanced', Some(ValueError))
      ensures !raised ==> && Listing(files, rest[1..])
                          && RenamePass(old(files), rest, m, offset, advanced)
                             == RenamePass(files, rest[1..], m, offset, advanced')
    {
      var f := rest[0];
      var t := ParseInt(Group(f));
      if t.None? {
        RaiseStep(files, rest, m, offset, advanced);
        return true, advanced;
      }
      var dst := Target(t.value - m + offset);
      MoveStep(files, rest, m, offset, advanced, dst);
      files := Rename(files, f, dst);
      raised, advanced' := false, advanced + 1;
    }

    /** `color_correction(path)`: every frame the search finds, in sorted
        order, has channels 0 and 2 exchanged in place; the progress total
        is the number of files and it ticks once per found frame. */
    method ColorCorrection() returns (total: nat, advanced: nat)
      modifies this
      ensures files == ColorCorrected(old(files)) && minT == old(minT)
      ensures total == |old(files).Keys| && advanced == FoundCount(SortedNames(old(files).Keys))
    {
      total := |files.Keys|;
      var names := SortedNames(files.Keys);
      SortedListing(files);
      ghost var files0 := files;
      advanced := 0;
      var rest := names;
      while rest != []
        invariant minT == old(minT)
        invariant Listing(files, rest)
        invariant CorrectPass(files, rest) == CorrectPass(files0, names)
        invariant advanced + FoundCount(rest) == FoundCount(names)
        decreases |rest|
      {
        var f := rest[0];
        ListingTail(files, rest, SwapImage(files[f]));
        if SearchStart(f).Some? {
          CorrectFile(f);
          advanced := advanced + 1;
        }
        rest := rest[1..];
      }
      CorrectPassSpec(files0, names);
      CorrectedOnAll(files0);
    }

    /** The body of the loop for a found frame: `imread`, the channel swap
        in place, `imsave` under the same name. */
    method CorrectFile(f: string)
      requires f in files
      modifies this
      ensures files == old(files)[f := SwapImage(old(files)[f])] && minT == old(minT)
    {
      var img := files[f];
      var frame := new Pixel[|img|](i requires 0 <= i < |img| => img[i]);
      assert frame[..] == img;
      SwapChannels(frame);
      files := files[f := frame[..]];
    }
  }

  /** `frame[:, :, 0], frame[:, :, 2] = frame[:, :, 2], tmp` in place, via a
      copy of channel 0. */
  method SwapChannels(frame: array<Pixel>)
    modifies frame
    ensures frame[..] == SwapImage(old(frame[..]))
  {
    var tmp := seq(frame.Length, i requires 0 <= i < frame.Length reads frame => frame[i].ch0);
    for i := 0 to frame.Length
      invariant forall k :: 0 <= k < i ==> frame[k] == old(frame[k]).(ch0 := old(frame[k]).ch2)
      invariant forall k :: i <= k < frame.Length ==> frame[k] == old(frame[k])
    {
      frame[i] := frame[i].(ch0 := frame[i].ch2);
    }
    for i := 0 to frame.Length
      invariant forall k :: 0 <= k < i ==> frame[k] == Swap(old(frame[k]))
      invariant forall k :: i <= k < frame.Length ==> frame[k] == old(frame[k]).(ch0 := old(frame[k]).ch2)
    {
      frame[i] := frame[i].(ch2 := tmp[i]);
    }
  }
}
