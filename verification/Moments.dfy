/** Choosing a restore point among folder names: by the names as strings, and by
  the instants that the names stand for.
 */
module Moments {
  import opened Order
  import opened Common
  import opened Calendar

  /** Go's zero time: the start of the year 1. */
  function ZeroTime(): (t: Time) {
    DaysBeforeYear(1) * 86400 * SECOND
  }

  predicate InRange(at: Time) {
    FieldsOf(at / SECOND).year <= 9999
  }

  // ---- names that are moments ----

  /** A fraction of a second, which time.Parse takes after the seconds though the
      layout has none. */
  predicate Fractional(n: Bytes) {
    && |n| >= 18 && (n[15] == 46 || n[15] == 44)
    && Digits(n[16..|n| - 1]) && n[|n| - 1] == LETTER_Z
    && Parse(WholeSecond(n)).Some?
  }

  function WholeSecond(n: Bytes): (r: Bytes)
    requires |n| >= 15
  {
    n[..15] + [LETTER_Z]
  }

  /** `time.Parse(MomentLayout, n)` succeeds. */
  predicate IsMoment(n: Bytes) {
    Parse(n).Some? || Fractional(n)
  }

  function MomentsIn(names: seq<Bytes>): (r: seq<Bytes>) {
    if names == [] then []
    else if IsMoment(names[|names| - 1]) then MomentsIn(names[..|names| - 1]) + [names[|names| - 1]]
    else MomentsIn(names[..|names| - 1])
  }

  lemma {:induction false} MomentsInMembers(names: seq<Bytes>)
    ensures forall n :: n in MomentsIn(names) <==> n in names && IsMoment(n)
  {
    if names != [] {
      var front, last := names[..|names| - 1], names[|names| - 1];
      MomentsInMembers(front);
      assert names == front + [last];
    }
  }

  /** The last name of a sorted list that is not after a name. */
  function LastUpTo(sorted: seq<Bytes>, want: Bytes): (r: Option<Bytes>) {
    if sorted == [] then None
    else if Le(sorted[|sorted| - 1], want) then Some(sorted[|sorted| - 1])
    else LastUpTo(sorted[..|sorted| - 1], want)
  }

  ghost predicate Greatest(p: Option<Bytes>, names: seq<Bytes>, want: Bytes) {
    && (p.None? ==> forall n :: n in names ==> !Le(n, want))
    && (p.Some? ==> p.value in names && Le(p.value, want) && forall n :: n in names && Le(n, want) ==> Le(n, p.value))
  }

  lemma {:induction false} LastUpToIsGreatest(sorted: seq<Bytes>, want: Bytes)
    requires Sorted(sorted, Le)
    ensures Greatest(LastUpTo(sorted, want), sorted, want)
  {
    if sorted != [] {
      var front, last := sorted[..|sorted| - 1], sorted[|sorted| - 1];
      LastUpToIsGreatest(front, want);
      assert sorted == front + [last];
      LessTotal(last, last);
      assert forall n :: n in front ==> Le(n, last);
    }
  }

  lemma {:induction false} GreatestUnique(p: Option<Bytes>, q: Option<Bytes>, names: seq<Bytes>, want: Bytes)
    requires Greatest(p, names, want) && Greatest(q, names, want)
    ensures p == q
  {
    if p.Some? && q.Some? {
      LessTotal(p.value, q.value);
    }
  }

  // ---- by string ----

  /** What the choice by string gives for a time that is set. */
  ghost function ByString(names: seq<Bytes>, at: Time): (r: Option<Bytes>) {
    LastUpTo(Sort(MomentsIn(names), Le), Text(FieldsOf(at / SECOND)))
  }

  lemma {:induction false} ByStringIsGreatest(names: seq<Bytes>, at: Time)
    ensures Greatest(ByString(names, at), MomentsIn(names), Text(FieldsOf(at / SECOND)))
  {
    LeIsTotalPreorder();
    SortSorts(MomentsIn(names), Le);
    SortMembers(MomentsIn(names), Le);
    LastUpToIsGreatest(Sort(MomentsIn(names), Le), Text(FieldsOf(at / SECOND)));
  }

  datatype Choice = NoMoments | Pick(name: Bytes, newest: bool) | TooEarly

  /** The name that PickMoment takes: the newest, or the newest not after a set time. */
  method PickMoment(names: seq<Bytes>, at: Time) returns (c: Choice)
    ensures c.NoMoments? <==> forall n :: n in names ==> !IsMoment(n)
    ensures c.Pick? ==> c.name in names && IsMoment(c.name)
    ensures c.Pick? ==> (c.newest <==> forall n :: n in names && IsMoment(n) ==> Le(n, c.name))
    ensures at == ZeroTime() && !c.NoMoments? ==> c.Pick? && c.newest
    ensures at != ZeroTime() && !c.NoMoments? ==>
              ByString(names, at) == if c.Pick? then Some(c.name) else None
  {
    var moments: seq<Bytes> := [];
    for i := 0 to |names|
      invariant moments == MomentsIn(names[..i])
    {
      assert names[..i + 1][..i] == names[..i];
      if IsMoment(names[i]) {
        moments := moments + [names[i]];
      }
    }
    assert names[..|names|] == names;
    MomentsInMembers(names);
    assert forall n :: n in names && IsMoment(n) ==> n in moments;
    if |moments| == 0 {
      return NoMoments;
    }
    assert moments[0] in moments;
    c := PickSorted(names, moments, at);
  }

  method PickSorted(ghost names: seq<Bytes>, moments: seq<Bytes>, at: Time) returns (c: Choice)
    requires moments == MomentsIn(names) && moments != []
    ensures !c.NoMoments?
    ensures c.Pick? ==> c.name in moments && (c.newest <==> forall n :: n in moments ==> Le(n, c.name))
    ensures at == ZeroTime() ==> c.Pick? && c.newest
    ensures at != ZeroTime() ==> ByString(names, at) == if c.Pick? then Some(c.name) else None
  {
    var sorted := Sort(moments, Le);
    SortedMoments(moments);
    var newest := sorted[|sorted| - 1];
    if at == ZeroTime() {
      return Pick(newest, true);
    }
    var picked := ScanBack(sorted, Text(FieldsOf(at / SECOND)));
    if picked.None? {
      return TooEarly;
    }
    NewestUnique(moments, picked.value, newest);
    c := Pick(picked.value, picked.value == newest);
  }

  method ScanBack(sorted: seq<Bytes>, want: Bytes) returns (r: Option<Bytes>)
    ensures r == LastUpTo(sorted, want)
    ensures r.Some? ==> r.value in sorted
  {
    var i := |sorted|;
    assert sorted[..i] == sorted;
    while i > 0
      invariant 0 <= i <= |sorted| && LastUpTo(sorted[..i], want) == LastUpTo(sorted, want)
    {
      assert sorted[..i][..i - 1] == sorted[..i - 1];
      if Le(sorted[i - 1], want) {
        return Some(sorted[i - 1]);
      }
      i := i - 1;
    }
    r := None;
  }

  lemma {:induction false} SortedMoments(moments: seq<Bytes>)
    requires moments != []
    ensures var sorted := Sort(moments, Le);
            && sorted != [] && (forall n :: n in sorted <==> n in moments)
            && sorted[|sorted| - 1] in moments && (forall n :: n in moments ==> Le(n, sorted[|sorted| - 1]))
  {
    LeIsTotalPreorder();
    SortSorts(moments, Le);
    SortMembers(moments, Le);
    NewestIsLast(Sort(moments, Le));
  }

  lemma {:induction false} NewestIsLast(sorted: seq<Bytes>)
    requires sorted != [] && Sorted(sorted, Le)
    ensures forall n :: n in sorted ==> Le(n, sorted[|sorted| - 1])
  {
    var last := sorted[|sorted| - 1];
    LessTotal(last, last);
    forall n | n in sorted ensures Le(n, last) {
      var k :| 0 <= k < |sorted| && sorted[k] == n;
      assert k == |sorted| - 1 || Le(sorted[k], sorted[|sorted| - 1]);
    }
  }

  lemma {:induction false} NewestUnique(sorted: seq<Bytes>, a: Bytes, newest: Bytes)
    requires a in sorted && newest in sorted && forall n :: n in sorted ==> Le(n, newest)
    ensures a == newest <==> forall n :: n in sorted ==> Le(n, a)
  {
    LessTotal(a, newest);
  }

  // ---- by instant ----

  datatype Folder = Folder(name: Bytes, seconds: nat)

  /** Reads a folder name. The text form is checked by Format again. */
  function ParseFolder(n: Bytes): (r: Option<Folder>) {
    if !Shaped(n) then None
    else if Parse(n).None? || Text(Parse(n).value) != n then None
    else Some(Folder(n, SecondsOf(Parse(n).value)))
  }

  /** The second look at the text refuses nothing. */
  lemma {:induction false} FormatCheckNeverRefuses(n: Bytes)
    ensures ParseFolder(n).Some? <==> Parse(n).Some?
    ensures Parse(n).Some? ==> Text(Parse(n).value) == n
  {
    if Shaped(n) {
      TextOfParse(n);
    }
  }

  function FoldersIn(names: seq<Bytes>): (r: seq<Folder>) {
    if names == [] then []
    else if ParseFolder(names[|names| - 1]).Some?
    then FoldersIn(names[..|names| - 1]) + [ParseFolder(names[|names| - 1]).value]
    else FoldersIn(names[..|names| - 1])
  }

  lemma {:induction false} FoldersInMembers(names: seq<Bytes>)
    ensures forall f :: f in FoldersIn(names) <==> f.name in names && ParseFolder(f.name) == Some(f)
  {
    if names != [] {
      var front, last := names[..|names| - 1], names[|names| - 1];
      FoldersInMembers(front);
      assert names == front + [last];
    }
  }

  predicate Older(a: Folder, b: Folder) {
    a.seconds <= b.seconds
  }

  /** The restore point folders among some names, oldest first. */
  method ListFolders(names: seq<Bytes>) returns (folders: seq<Folder>)
    ensures folders == Sort(FoldersIn(names), Older)
  {
    var out: seq<Folder> := [];
    for i := 0 to |names|
      invariant out == FoldersIn(names[..i])
    {
      assert names[..i + 1][..i] == names[..i];
      var f := ParseFolder(names[i]);
      if f.Some? {
        out := out + [f.value];
      }
    }
    assert names[..|names|] == names;
    folders := Sort(out, Older);
  }

  function LastAtOrBefore(folders: seq<Folder>, at: Time): (r: Option<Folder>) {
    if folders == [] then None
    else if folders[|folders| - 1].seconds * SECOND <= at then Some(folders[|folders| - 1])
    else LastAtOrBefore(folders[..|folders| - 1], at)
  }

  method PickRestorePointFolder(folders: seq<Folder>, at: Time) returns (r: Option<Folder>)
    ensures r == LastAtOrBefore(folders, at)
  {
    var i := |folders|;
    assert folders[..i] == folders;
    while i > 0
      invariant 0 <= i <= |folders| && LastAtOrBefore(folders[..i], at) == LastAtOrBefore(folders, at)
    {
      assert folders[..i][..i - 1] == folders[..i - 1];
      if folders[i - 1].seconds * SECOND <= at {
        return Some(folders[i - 1]);
      }
      i := i - 1;
    }
    r := None;
  }

  ghost function ByInstant(names: seq<Bytes>, at: Time): (r: Option<Bytes>) {
    var f := LastAtOrBefore(Sort(FoldersIn(names), Older), at);
    if f.Some? then Some(f.value.name) else None
  }

  ghost predicate Latest(p: Option<Folder>, folders: seq<Folder>, at: Time) {
    && (p.None? ==> forall f :: f in folders ==> f.seconds * SECOND > at)
    && (p.Some? ==> p.value in folders && p.value.seconds * SECOND <= at
                    && forall f :: f in folders && f.seconds * SECOND <= at ==> f.seconds <= p.value.seconds)
  }

  lemma {:induction false} LastIsLatest(folders: seq<Folder>, at: Time)
    requires Sorted(folders, Older)
    ensures Latest(LastAtOrBefore(folders, at), folders, at)
  {
    if folders != [] {
      var front, last := folders[..|folders| - 1], folders[|folders| - 1];
      LastIsLatest(front, at);
      assert folders == front + [last];
      assert forall f :: f in front ==> Older(f, last);
    }
  }

  // ---- the two choices ----

  /** A name is not after the text of a time exactly when its instant is not after
      the time, though the text drops the part of a second. */
  lemma {:induction false} CutToSeconds(f: Fields, at: Time)
    requires ValidFields(f) && InRange(at)
    ensures Le(Text(f), Text(FieldsOf(at / SECOND))) <==> SecondsOf(f) * SECOND <= at
  {
    var g := FieldsOf(at / SECOND);
    FieldsRoundTrip(at / SECOND);
    TextOrderIsTimeOrder(g, f);
  }

  ghost function WellFormed(names: seq<Bytes>): (r: seq<Bytes>)
    ensures forall n :: n in r <==> n in names && Parse(n).Some?
  {
    if names == [] then []
    else
      assert names == names[..|names| - 1] + [names[|names| - 1]];
      if Parse(names[|names| - 1]).Some? then WellFormed(names[..|names| - 1]) + [names[|names| - 1]]
      else WellFormed(names[..|names| - 1])
  }

  /** The choice by instant takes the greatest well-formed name not after the text
      of the time. */
  lemma {:induction false} ByInstantIsGreatest(names: seq<Bytes>, at: Time)
    requires InRange(at)
    ensures Greatest(ByInstant(names, at), WellFormed(names), Text(FieldsOf(at / SECOND)))
  {
    var want := Text(FieldsOf(at / SECOND));
    var folders := Sort(FoldersIn(names), Older);
    SortSorts(FoldersIn(names), Older);
    SortMembers(FoldersIn(names), Older);
    FoldersInMembers(names);
    LastIsLatest(folders, at);
    var p := LastAtOrBefore(folders, at);
    forall n | n in WellFormed(names)
      ensures p.None? ==> !Le(n, want)
      ensures p.Some? && Le(n, want) ==> Le(n, p.value.name)
    {
      NameVersusPick(names, n, folders, p, at);
    }
    if p.Some? {
      assert p.value in FoldersIn(names);
      FormatCheckNeverRefuses(p.value.name);
      CutToSeconds(Parse(p.value.name).value, at);
    }
  }

  lemma {:induction false} NameVersusPick(names: seq<Bytes>, n: Bytes, folders: seq<Folder>, p: Option<Folder>,
                                          at: Time)
    requires InRange(at) && n in names && Parse(n).Some?
    requires forall f :: f in folders <==> f.name in names && ParseFolder(f.name) == Some(f)
    requires Latest(p, folders, at)
    ensures p.None? ==> !Le(n, Text(FieldsOf(at / SECOND)))
    ensures p.Some? && Le(n, Text(FieldsOf(at / SECOND))) ==> Le(n, p.value.name)
  {
    FormatCheckNeverRefuses(n);
    var f := ParseFolder(n).value;
    assert f in folders;
    CutToSeconds(Parse(n).value, at);
    if p.Some? && Le(n, Text(FieldsOf(at / SECOND))) {
      FormatCheckNeverRefuses(p.value.name);
      TextOrderIsTimeOrder(Parse(p.value.name).value, Parse(n).value);
    }
  }

  /** A name with a fraction comes right before the name of its whole second: no
      other whole second is in between. */
  lemma {:induction false} FractionBeforeSecond(n: Bytes, w: Bytes)
    requires Fractional(n) && |w| == 16
    ensures Less(n, WholeSecond(n))
    ensures w[15] == LETTER_Z && Le(n, w) ==> Le(WholeSecond(n), w)
  {
    var p := n[..15];
    assert n == p + n[15..] && WholeSecond(n) == p + [LETTER_Z];
    LessPrefix(p, n[15..], [LETTER_Z]);
    if w[15] == LETTER_Z && Le(n, w) {
      assert w == w[..15] + [w[15]];
      LessTotal(p, w[..15]);
      if Less(w[..15], p) {
        LessHead(w[..15], p, [w[15]], n[15..]);
      } else if Less(p, w[..15]) {
        LessHead(p, w[..15], [LETTER_Z], [w[15]]);
        LessTotal(WholeSecond(n), w);
      } else {
        LessTotal(w, w);
      }
    }
  }

  /** Every name with a fraction has its whole second beside it. */
  ghost predicate SecondsPresent(names: seq<Bytes>) {
    forall n :: n in names && Fractional(n) ==> WholeSecond(n) in names
  }

  lemma {:induction false} TextEndsInZ(f: Fields)
    ensures Text(f)[15] == LETTER_Z
  {
    ClockPieces(f);
  }

  lemma {:induction false} AgreeAt(names: seq<Bytes>, at: Time)
    requires InRange(at) && SecondsPresent(names)
    ensures ByString(names, at) == ByInstant(names, at)
  {
    var want, p := Text(FieldsOf(at / SECOND)), ByInstant(names, at);
    ByStringIsGreatest(names, at);
    ByInstantIsGreatest(names, at);
    MomentsInMembers(names);
    TextEndsInZ(FieldsOf(at / SECOND));
    forall n | n in MomentsIn(names) && Le(n, want) ensures p.Some? && Le(n, p.value) {
      if Fractional(n) && Parse(n).None? {
        var s := WholeSecond(n);
        FractionBeforeSecond(n, want);
        assert s in WellFormed(names) && Le(s, want);
        LessTotal(s, p.value);
        if s != p.value {
          LessTransitive(n, s, p.value);
        }
        LessTotal(n, p.value);
      }
    }
    GreatestUnique(ByString(names, at), p, MomentsIn(names), want);
  }

  ghost predicate AgreeAlways(names: seq<Bytes>) {
    forall at: Time :: InRange(at) && at != ZeroTime() ==> ByString(names, at) == ByInstant(names, at)
  }

  lemma {:induction false} DisagreeAt(names: seq<Bytes>, n: Bytes, at: Time)
    requires n in names && Fractional(n) && WholeSecond(n) !in names
    requires InRange(at) && Text(FieldsOf(at / SECOND)) == WholeSecond(n)
    ensures ByString(names, at) != ByInstant(names, at)
  {
    var want, p := WholeSecond(n), ByString(names, at);
    ByStringIsGreatest(names, at);
    ByInstantIsGreatest(names, at);
    MomentsInMembers(names);
    FractionBeforeSecond(n, want);
    LessTotal(n, want);
    assert n in MomentsIn(names) && Le(n, want);
    assert p.Some? && Le(n, p.value) && Le(p.value, want);
    if Parse(p.value).Some? {
      FractionBeforeSecond(n, p.value);
      LessTotal(want, p.value);
    }
  }

  lemma {:induction false} PastTheSecond(f: Fields) returns (at: Time)
    requires ValidFields(f)
    ensures InRange(at) && at != ZeroTime() && FieldsOf(at / SECOND) == f
  {
    var seconds := SecondsOf(f);
    FieldsOfInstant(f);
    at := seconds * SECOND + 1;
    assert at / SECOND == seconds && at % SECOND == 1;
    var zeroDays := DaysBeforeYear(1) * 86400;
    assert zeroDays * SECOND % SECOND == 0;
  }

  lemma {:induction false} AgreeNeedsSecond(names: seq<Bytes>, n: Bytes)
    requires AgreeAlways(names) && n in names && Fractional(n)
    ensures WholeSecond(n) in names
  {
    TextOfParse(WholeSecond(n));
    var at := PastTheSecond(Parse(WholeSecond(n)).value);
    if WholeSecond(n) !in names {
      DisagreeAt(names, n, at);
    }
  }

  /** The choice by string and the choice by instant are the same folder, or the
      same refusal, for every time that is set, exactly when every name with a
      fraction of a second has its whole second beside it; in particular when
      there is no such name. */
  lemma {:induction false} PickersAgree(names: seq<Bytes>)
    ensures AgreeAlways(names) <==> SecondsPresent(names)
  {
    if SecondsPresent(names) {
      forall at: Time | InRange(at) && at != ZeroTime() ensures ByString(names, at) == ByInstant(names, at) {
        AgreeAt(names, at);
      }
    }
    if AgreeAlways(names) {
      forall n | n in names && Fractional(n) ensures WholeSecond(n) in names {
        AgreeNeedsSecond(names, n);
      }
    }
  }
}
