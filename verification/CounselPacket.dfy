/**
 * packages/reports/counsel-packet.ts: the Part B groups, the dropped list and the record
 * citation log of `counselPacketSections`. Findings are never silently removed.
 */
module CounselPacket {
  import opened Wrappers
  import opened TrapChain

  datatype Screen = PRESERVED_ERROR | IAC | BRADY | JUNK_SCIENCE | SENTENCING | VOIR_DIRE | IDENTIFICATION
                  | PLEA_LANE | OTHER

  /** Page and line are the decimal strings the key is built from. */
  datatype Citation = Citation(volume: Option<string>, page: Option<string>, line: Option<string>, excerpt: string)

  datatype Finding = Finding(id: string, category: string, screen: Option<string>, severity: string,
                             citations: seq<Citation>)

  /** `isScreenId`: the screen a string names. */
  function ScreenNamed(s: string): Option<Screen> {
    if s == "preserved_error" then Some(PRESERVED_ERROR)
    else if s == "iac" then Some(IAC)
    else if s == "brady" then Some(BRADY)
    else if s == "junk_science" then Some(JUNK_SCIENCE)
    else if s == "sentencing" then Some(SENTENCING)
    else if s == "voir_dire" then Some(VOIR_DIRE)
    else if s == "identification" then Some(IDENTIFICATION)
    else if s == "plea_lane" then Some(PLEA_LANE)
    else None
  }

  /** `screenOf`: the finding's screen, else its category, else 'other'. */
  function ScreenOf(f: Finding): Screen {
    if f.screen.Some? && ScreenNamed(f.screen.value).Some? then ScreenNamed(f.screen.value).value
    else if ScreenNamed(f.category).Some? then ScreenNamed(f.category).value
    else OTHER
  }

  const SCREEN_IDS: seq<Screen> := [
    PRESERVED_ERROR, IAC, BRADY, JUNK_SCIENCE, SENTENCING, VOIR_DIRE, IDENTIFICATION, PLEA_LANE
  ]

  /** `weightedScreens` of packages/case-lifecycle/trap/vehicles.ts. */
  function Weighted(v: Vehicle): seq<Screen> {
    match v
    case DirectAppeal => [PRESERVED_ERROR, VOIR_DIRE, IDENTIFICATION, SENTENCING, JUNK_SCIENCE, IAC, BRADY]
    case PdrClock => [PRESERVED_ERROR, SENTENCING]
    case Art1107 => [IAC, BRADY, JUNK_SCIENCE, SENTENCING, IDENTIFICATION, PLEA_LANE, PRESERVED_ERROR]
    case Art11071 => [IAC, BRADY, JUNK_SCIENCE]
    case Art11072 => [PLEA_LANE, IAC, SENTENCING, BRADY]
    case Art1109 => [PLEA_LANE, IAC, SENTENCING]
    case Federal2254 => [IAC, BRADY, JUNK_SCIENCE, IDENTIFICATION, PRESERVED_ERROR]
  }

  function Without(screens: seq<Screen>, out: seq<Screen>): seq<Screen> {
    if screens == [] then []
    else Without(screens[..|screens| - 1], out) + if screens[|screens| - 1] in out then [] else [screens[|screens| - 1]]
  }

  /** `screenOrder`: the vehicle's weighted screens, the rest, then 'other'. */
  function ScreenOrder(v: Vehicle): seq<Screen> {
    Weighted(v) + Without(SCREEN_IDS, Weighted(v)) + [OTHER]
  }

  lemma {:induction false} WithoutIsRest(screens: seq<Screen>, out: seq<Screen>)
    requires NoRepeats(screens)
    ensures NoRepeats(Without(screens, out))
    ensures forall s :: s in Without(screens, out) <==> s in screens && s !in out
  {
    if screens != [] {
      var n := |screens| - 1;
      WithoutIsRest(screens[..n], out);
      assert forall s :: s in screens <==> s in screens[..n] || s == screens[n];
    }
  }

  lemma Joined<T(!new)>(a: seq<T>, b: seq<T>)
    requires NoRepeats(a) && NoRepeats(b) && forall x :: x in a ==> x !in b
    ensures NoRepeats(a + b)
  {
    forall j, k | 0 <= j < k < |a + b|
      ensures (a + b)[j] != (a + b)[k]
    {
      if j < |a| <= k {
        assert (a + b)[j] in a && (a + b)[k] in b;
      }
    }
  }

  /** Every screen stands in the order exactly once, so no finding's group is left out or printed twice. */
  lemma OrderIsComplete(v: Vehicle)
    ensures NoRepeats(ScreenOrder(v)) && forall s: Screen :: s in ScreenOrder(v)
  {
    var first, rest := Weighted(v), Without(SCREEN_IDS, Weighted(v));
    ScreensUnrepeated();
    WithoutIsRest(SCREEN_IDS, first);
    WeightedUnrepeated(v);
    Joined(first, rest);
    Joined(first + rest, [OTHER]);
    forall s: Screen
      ensures s in first + rest + [OTHER]
    {
      ScreenListed(s);
    }
  }

  lemma ScreensUnrepeated()
    ensures OTHER !in SCREEN_IDS && NoRepeats(SCREEN_IDS)
  {
  }

  lemma ScreenListed(s: Screen)
    ensures s == OTHER || s in SCREEN_IDS
  {
    match s
    case PRESERVED_ERROR => assert SCREEN_IDS[0] == s;
    case IAC => assert SCREEN_IDS[1] == s;
    case BRADY => assert SCREEN_IDS[2] == s;
    case JUNK_SCIENCE => assert SCREEN_IDS[3] == s;
    case SENTENCING => assert SCREEN_IDS[4] == s;
    case VOIR_DIRE => assert SCREEN_IDS[5] == s;
    case IDENTIFICATION => assert SCREEN_IDS[6] == s;
    case PLEA_LANE => assert SCREEN_IDS[7] == s;
    case OTHER =>
  }

  lemma WeightedUnrepeated(v: Vehicle)
    ensures NoRepeats(Weighted(v)) && OTHER !in Weighted(v)
  {
  }

  // ---- Part B ----

  /** The sort key of a severity. */
  function SeverityRank(severity: string): int {
    if severity == "dispositive" then 0
    else if severity == "supportive" then 1
    else if severity == "background" then 2
    else 9
  }

  function OfRank(fs: seq<Finding>, rank: int): seq<Finding> {
    if fs == [] then []
    else OfRank(fs[..|fs| - 1], rank) + if SeverityRank(fs[|fs| - 1].severity) == rank then [fs[|fs| - 1]] else []
  }

  /** A stable sort by severity, on a key of four values. */
  function BySeverity(fs: seq<Finding>): seq<Finding> {
    OfRank(fs, 0) + OfRank(fs, 1) + OfRank(fs, 2) + OfRank(fs, 9)
  }

  ghost predicate AllOfRank(fs: seq<Finding>, rank: int) {
    forall k :: 0 <= k < |fs| ==> SeverityRank(fs[k].severity) == rank
  }

  ghost predicate SortedBySeverity(fs: seq<Finding>) {
    forall j, k :: 0 <= j < k < |fs| ==> SeverityRank(fs[j].severity) <= SeverityRank(fs[k].severity)
  }

  lemma {:induction false} OfRankHasRank(fs: seq<Finding>, rank: int)
    ensures AllOfRank(OfRank(fs, rank), rank)
  {
    if fs != [] {
      OfRankHasRank(fs[..|fs| - 1], rank);
    }
  }

  lemma {:induction false} OfRankAppend(a: seq<Finding>, b: seq<Finding>, rank: int)
    ensures OfRank(a + b, rank) == OfRank(a, rank) + OfRank(b, rank)
  {
    if b == [] {
      assert a + b == a;
    } else {
      assert (a + b)[..|a + b| - 1] == a + b[..|b| - 1];
      OfRankAppend(a, b[..|b| - 1], rank);
    }
  }

  lemma {:induction false} OfRankAgain(fs: seq<Finding>, rank: int, other: int)
    requires AllOfRank(fs, rank)
    ensures OfRank(fs, other) == if rank == other then fs else []
  {
    if fs != [] {
      var n := |fs| - 1;
      OfRankAgain(fs[..n], rank, other);
      assert fs == fs[..n] + [fs[n]];
    }
  }

  lemma BlockOfRank(fs: seq<Finding>, rank: int, other: int)
    ensures OfRank(OfRank(fs, rank), other) == if rank == other then OfRank(fs, rank) else []
  {
    OfRankHasRank(fs, rank);
    OfRankAgain(OfRank(fs, rank), rank, other);
  }

  lemma FourBlocks(a: seq<Finding>, b: seq<Finding>, c: seq<Finding>, d: seq<Finding>, rank: int)
    ensures OfRank(a + b + c + d, rank) == OfRank(a, rank) + OfRank(b, rank) + OfRank(c, rank) + OfRank(d, rank)
  {
    OfRankAppend(a + b + c, d, rank);
    OfRankAppend(a + b, c, rank);
    OfRankAppend(a, b, rank);
  }

  /** The sort is stable: the findings of one severity keep their order. */
  lemma SortIsStable(fs: seq<Finding>, rank: int)
    requires rank in {0, 1, 2, 9}
    ensures OfRank(BySeverity(fs), rank) == OfRank(fs, rank)
  {
    FourBlocks(OfRank(fs, 0), OfRank(fs, 1), OfRank(fs, 2), OfRank(fs, 9), rank);
    BlockOfRank(fs, 0, rank);
    BlockOfRank(fs, 1, rank);
    BlockOfRank(fs, 2, rank);
    BlockOfRank(fs, 9, rank);
  }

  ghost predicate RanksUpTo(fs: seq<Finding>, rank: int) {
    forall k :: 0 <= k < |fs| ==> SeverityRank(fs[k].severity) <= rank
  }

  lemma SortedBlock(fs: seq<Finding>, block: seq<Finding>, below: int, rank: int)
    requires SortedBySeverity(fs) && RanksUpTo(fs, below) && AllOfRank(block, rank) && below <= rank
    ensures SortedBySeverity(fs + block) && RanksUpTo(fs + block, rank)
  {
  }

  lemma SortIsSorted(fs: seq<Finding>)
    ensures SortedBySeverity(BySeverity(fs))
  {
    OfRankHasRank(fs, 0);
    OfRankHasRank(fs, 1);
    OfRankHasRank(fs, 2);
    OfRankHasRank(fs, 9);
    SortedBlock(OfRank(fs, 0), OfRank(fs, 1), 0, 1);
    SortedBlock(OfRank(fs, 0) + OfRank(fs, 1), OfRank(fs, 2), 1, 2);
    SortedBlock(OfRank(fs, 0) + OfRank(fs, 1) + OfRank(fs, 2), OfRank(fs, 9), 2, 9);
  }

  /** How often a finding occurs in its own severity's block, and in no other. */
  lemma {:induction false} OccursInBlock(fs: seq<Finding>, rank: int, f: Finding)
    ensures multiset(OfRank(fs, rank))[f] == if SeverityRank(f.severity) == rank then multiset(fs)[f] else 0
  {
    if fs != [] {
      var n := |fs| - 1;
      OccursInBlock(fs[..n], rank, f);
      assert fs == fs[..n] + [fs[n]];
    }
  }

  lemma SortIsPermutation(fs: seq<Finding>)
    ensures multiset(BySeverity(fs)) == multiset(fs)
  {
    forall f: Finding
      ensures multiset(BySeverity(fs))[f] == multiset(fs)[f]
    {
      OccursInBlock(fs, 0, f);
      OccursInBlock(fs, 1, f);
      OccursInBlock(fs, 2, f);
      OccursInBlock(fs, 9, f);
    }
  }

  /** The findings under one screen, in list order. */
  function Under(fs: seq<Finding>, s: Screen): seq<Finding> {
    if fs == [] then []
    else Under(fs[..|fs| - 1], s) + if ScreenOf(fs[|fs| - 1]) == s then [fs[|fs| - 1]] else []
  }

  datatype Group = Group(screen: Screen, findings: seq<Finding>)

  function GroupsIn(order: seq<Screen>, fs: seq<Finding>): seq<Group> {
    if order == [] then []
    else
      var s := order[|order| - 1];
      GroupsIn(order[..|order| - 1], fs) + if Under(fs, s) == [] then [] else [Group(s, BySeverity(Under(fs, s)))]
  }

  datatype Dropped = Dropped(id: string, category: string, severity: string, cite: Option<Citation>)

  /** The finding's first citation stands for the cite text made from it. */
  function DroppedItem(f: Finding): Dropped {
    Dropped(f.id, f.category, f.severity, if f.citations != [] then Some(f.citations[0]) else None)
  }

  function DroppedItems(fs: seq<Finding>): (r: seq<Dropped>)
    ensures |r| == |fs| && forall k :: 0 <= k < |fs| ==>
              && r[k].id == fs[k].id && r[k].category == fs[k].category && r[k].severity == fs[k].severity
              && r[k].cite == if fs[k].citations == [] then None else Some(fs[k].citations[0])
  {
    seq(|fs|, k requires 0 <= k < |fs| => DroppedItem(fs[k]))
  }

  /** The map holds each screen that has findings, with exactly its findings. */
  ghost predicate Collects(byScreen: map<Screen, seq<Finding>>, fs: seq<Finding>) {
    forall s: Screen ::
      (if s in byScreen then byScreen[s] else []) == Under(fs, s) && (s in byScreen <==> Under(fs, s) != [])
  }

  lemma CollectsOneMore(byScreen: map<Screen, seq<Finding>>, fs: seq<Finding>, f: Finding)
    requires Collects(byScreen, fs)
    ensures var s := ScreenOf(f); Collects(byScreen[s := (if s in byScreen then byScreen[s] else []) + [f]], fs + [f])
  {
    assert (fs + [f])[..|fs|] == fs;
  }

  method CollectByScreen(retained: seq<Finding>) returns (byScreen: map<Screen, seq<Finding>>)
    ensures Collects(byScreen, retained)
  {
    byScreen := map[];
    for k := 0 to |retained|
      invariant Collects(byScreen, retained[..k])
    {
      CollectsOneMore(byScreen, retained[..k], retained[k]);
      assert retained[..k + 1] == retained[..k] + [retained[k]];
      var s := ScreenOf(retained[k]);
      byScreen := byScreen[s := (if s in byScreen then byScreen[s] else []) + [retained[k]]];
    }
    assert retained[..|retained|] == retained;
  }

  method GroupInOrder(order: seq<Screen>, byScreen: map<Screen, seq<Finding>>, ghost retained: seq<Finding>)
    returns (groups: seq<Group>)
    requires Collects(byScreen, retained)
    ensures groups == GroupsIn(order, retained)
  {
    groups := [];
    for k := 0 to |order|
      invariant groups == GroupsIn(order[..k], retained)
    {
      assert order[..k + 1][..k] == order[..k];
      if order[k] in byScreen {
        groups := groups + [Group(order[k], BySeverity(byScreen[order[k]]))];
      }
    }
    assert order[..|order|] == order;
  }

  /** Section (e): collect by screen, then one group per screen of the order that has findings. */
  method PartB(v: Vehicle, retained: seq<Finding>, dropped: seq<Finding>)
    returns (groups: seq<Group>, items: seq<Dropped>)
    ensures groups == GroupsIn(ScreenOrder(v), retained) && items == DroppedItems(dropped)
  {
    var byScreen := CollectByScreen(retained);
    groups := GroupInOrder(ScreenOrder(v), byScreen, retained);
    items := DroppedItems(dropped);
  }

  function Printed(groups: seq<Group>): seq<Finding> {
    if groups == [] then [] else Printed(groups[..|groups| - 1]) + groups[|groups| - 1].findings
  }

  /** The findings whose screen is in the list. */
  function UnderAny(fs: seq<Finding>, screens: seq<Screen>): seq<Finding> {
    if fs == [] then []
    else UnderAny(fs[..|fs| - 1], screens) + if ScreenOf(fs[|fs| - 1]) in screens then [fs[|fs| - 1]] else []
  }

  lemma {:induction false} OneMoreScreen(fs: seq<Finding>, screens: seq<Screen>, s: Screen)
    requires s !in screens
    ensures multiset(UnderAny(fs, screens + [s])) == multiset(UnderAny(fs, screens)) + multiset(Under(fs, s))
  {
    if fs != [] {
      var rest, f := fs[..|fs| - 1], fs[|fs| - 1];
      OneMoreScreen(rest, screens, s);
      assert ScreenOf(f) in screens + [s] <==> ScreenOf(f) in screens || ScreenOf(f) == s;
    }
  }

  lemma {:induction false} NoScreens(fs: seq<Finding>)
    ensures UnderAny(fs, []) == []
  {
    if fs != [] {
      NoScreens(fs[..|fs| - 1]);
    }
  }

  lemma {:induction false} AllUnder(fs: seq<Finding>, screens: seq<Screen>)
    requires forall s: Screen :: s in screens
    ensures UnderAny(fs, screens) == fs
  {
    if fs != [] {
      AllUnder(fs[..|fs| - 1], screens);
    }
  }

  lemma {:induction false} PrintedSoFar(order: seq<Screen>, fs: seq<Finding>)
    requires NoRepeats(order)
    ensures multiset(Printed(GroupsIn(order, fs))) == multiset(UnderAny(fs, order))
  {
    if order == [] {
      NoScreens(fs);
    } else {
      var n := |order| - 1;
      var s := order[n];
      PrintedSoFar(order[..n], fs);
      OneMoreScreen(fs, order[..n], s);
      assert order[..n] + [s] == order;
      SortIsPermutation(Under(fs, s));
      if Under(fs, s) != [] {
        var g := Group(s, BySeverity(Under(fs, s)));
        assert (GroupsIn(order[..n], fs) + [g])[..|GroupsIn(order[..n], fs)|] == GroupsIn(order[..n], fs);
      } else {
        assert GroupsIn(order, fs) == GroupsIn(order[..n], fs);
      }
    }
  }

  lemma {:induction false} UnderIsOfScreen(fs: seq<Finding>, s: Screen)
    ensures forall f :: f in Under(fs, s) ==> ScreenOf(f) == s
  {
    if fs != [] {
      UnderIsOfScreen(fs[..|fs| - 1], s);
    }
  }

  /** A group is its screen's findings, sorted, and is not empty. */
  ghost predicate IsGroup(g: Group, fs: seq<Finding>) {
    g.findings != [] && g.findings == BySeverity(Under(fs, g.screen))
  }

  ghost predicate OfScreen(g: Group) {
    forall f :: f in g.findings ==> ScreenOf(f) == g.screen
  }

  lemma SortedIsGroup(fs: seq<Finding>, s: Screen)
    requires Under(fs, s) != []
    ensures IsGroup(Group(s, BySeverity(Under(fs, s))), fs)
  {
    SortIsPermutation(Under(fs, s));
    assert Under(fs, s)[0] in multiset(Under(fs, s));
  }

  lemma {:induction false} EachIsGroup(order: seq<Screen>, fs: seq<Finding>)
    ensures forall g :: g in GroupsIn(order, fs) ==> IsGroup(g, fs)
  {
    if order != [] {
      var n := |order| - 1;
      EachIsGroup(order[..n], fs);
      if Under(fs, order[n]) != [] {
        SortedIsGroup(fs, order[n]);
      }
    }
  }

  /**
   * The Part B groups are a permutation of the retained findings; no group is empty, and each
   * is its screen's findings, stably sorted by severity.
   */
  lemma GroupsKeepEveryFinding(v: Vehicle, retained: seq<Finding>)
    ensures multiset(Printed(GroupsIn(ScreenOrder(v), retained))) == multiset(retained)
    ensures forall g :: g in GroupsIn(ScreenOrder(v), retained) ==> IsGroup(g, retained) && SortedBySeverity(g.findings)
    ensures forall g :: g in GroupsIn(ScreenOrder(v), retained) ==> OfScreen(g)
  {
    OrderIsComplete(v);
    PrintedSoFar(ScreenOrder(v), retained);
    AllUnder(retained, ScreenOrder(v));
    EachIsGroup(ScreenOrder(v), retained);
    forall g | g in GroupsIn(ScreenOrder(v), retained)
      ensures SortedBySeverity(g.findings) && OfScreen(g)
    {
      SortIsSorted(Under(retained, g.screen));
      SortIsPermutation(Under(retained, g.screen));
      UnderIsOfScreen(retained, g.screen);
      assert forall f :: f in g.findings ==> f in multiset(g.findings);
    }
  }

  // ---- The record citation log ----

  datatype CiteStatus = Verified | WasDropped

  datatype Entry = Entry(key: string, findingId: string, category: string, citation: Citation, status: CiteStatus)

  function Text(s: Option<string>): string {
    if s.Some? then s.value else ""
  }

  function KeyOf(f: Finding, c: Citation): string {
    f.id + "|" + Text(c.volume) + "|" + Text(c.page) + "|" + Text(c.line) + "|" + c.excerpt
  }

  function EntryFor(f: Finding, c: Citation, status: CiteStatus): Entry {
    Entry(KeyOf(f, c), f.id, f.category, c, status)
  }

  ghost predicate Logged(entries: seq<Entry>, key: string) {
    exists k :: 0 <= k < |entries| && entries[k].key == key
  }

  /** A finding of the list cites under this key. */
  ghost predicate Cited(fs: seq<Finding>, key: string) {
    exists j, k :: 0 <= j < |fs| && 0 <= k < |fs[j].citations| && KeyOf(fs[j], fs[j].citations[k]) == key
  }

  /** The entry prints a citation of the finding, with the finding's own fields. */
  ghost predicate Prints(e: Entry, f: Finding) {
    && e.findingId == f.id && e.category == f.category
    && exists k :: 0 <= k < |f.citations| && e.citation == f.citations[k] && e.key == KeyOf(f, f.citations[k])
  }

  ghost predicate PrintsOneOf(e: Entry, fs: seq<Finding>) {
    exists j :: 0 <= j < |fs| && Prints(e, fs[j])
  }

  /** The entries after more are offered: each is added unless its key is logged. */
  ghost function Offered(entries: seq<Entry>, more: seq<Entry>): seq<Entry> {
    if more == [] then entries
    else
      var before := Offered(entries, more[..|more| - 1]);
      if Logged(before, more[|more| - 1].key) then before else before + [more[|more| - 1]]
  }

  /** An entry for each citation of a finding, in order. */
  function EntriesOf(f: Finding, status: CiteStatus): seq<Entry> {
    seq(|f.citations|, k requires 0 <= k < |f.citations| => EntryFor(f, f.citations[k], status))
  }

  function AllEntries(fs: seq<Finding>, status: CiteStatus): seq<Entry> {
    if fs == [] then [] else AllEntries(fs[..|fs| - 1], status) + EntriesOf(fs[|fs| - 1], status)
  }

  lemma {:induction false} OfferedAppend(entries: seq<Entry>, a: seq<Entry>, b: seq<Entry>)
    ensures Offered(entries, a + b) == Offered(Offered(entries, a), b)
  {
    if b == [] {
      assert a + b == a;
    } else {
      assert (a + b)[..|a + b| - 1] == a + b[..|b| - 1];
      OfferedAppend(entries, a, b[..|b| - 1]);
    }
  }

  lemma OfferedSnoc(entries: seq<Entry>, more: seq<Entry>, k: nat)
    requires k < |more|
    ensures var before := Offered(entries, more[..k]);
            Offered(entries, more[..k + 1]) == if Logged(before, more[k].key) then before else before + [more[k]]
  {
    assert more[..k + 1][..k] == more[..k];
  }

  /** Offering keeps what is logged in front, and logs each key offered. */
  lemma {:induction false} OfferedLogs(entries: seq<Entry>, more: seq<Entry>)
    ensures entries <= Offered(entries, more)
    ensures forall key :: Logged(Offered(entries, more), key) <==> Logged(entries, key) || Logged(more, key)
  {
    if more != [] {
      var n := |more| - 1;
      OfferedLogs(entries, more[..n]);
      assert more == more[..n] + [more[n]];
      LoggedAlso(more[..n], more[n]);
      LoggedAlso(Offered(entries, more[..n]), more[n]);
    }
  }

  lemma {:induction false} OfferedUnrepeated(entries: seq<Entry>, more: seq<Entry>)
    requires KeysUnrepeated(entries)
    ensures KeysUnrepeated(Offered(entries, more))
  {
    if more != [] {
      OfferedUnrepeated(entries, more[..|more| - 1]);
    }
  }

  /** The first entry with its key. */
  ghost predicate IsFirst(more: seq<Entry>, j: int) {
    0 <= j < |more| && forall i :: 0 <= i < j ==> more[i].key != more[j].key
  }

  /** What is kept beyond the entries logged is the first offered with its key. */
  lemma {:induction false} OfferedIsFirst(entries: seq<Entry>, more: seq<Entry>, k: nat)
    requires |entries| <= k < |Offered(entries, more)|
    ensures exists j :: IsFirst(more, j) && more[j] == Offered(entries, more)[k]
  {
    var n := |more| - 1;
    var before := Offered(entries, more[..n]);
    if k < |before| {
      OfferedIsFirst(entries, more[..n], k);
      var j :| IsFirst(more[..n], j) && more[..n][j] == before[k];
      assert IsFirst(more, j) && more[j] == before[k];
    } else {
      OfferedLogs(entries, more[..n]);
      forall i | 0 <= i < n
        ensures more[i].key != more[n].key
      {
        assert more[..n][i] == more[i];
      }
      assert IsFirst(more, n);
    }
  }

  lemma LoggedAlso(entries: seq<Entry>, e: Entry)
    ensures forall x :: Logged(entries + [e], x) <==> Logged(entries, x) || e.key == x
  {
    forall x
      ensures Logged(entries + [e], x) <==> Logged(entries, x) || e.key == x
    {
      LoggedSnoc(entries, e, x);
    }
  }

  /** The entries of a list carry its status, print its findings, and have the keys it cites under. */
  lemma {:induction false} AllEntriesPrint(fs: seq<Finding>, status: CiteStatus)
    ensures forall k :: 0 <= k < |AllEntries(fs, status)| ==>
                          AllEntries(fs, status)[k].status == status && PrintsOneOf(AllEntries(fs, status)[k], fs)
  {
    if fs != [] {
      var n := |fs| - 1;
      AllEntriesPrint(fs[..n], status);
      var before: seq<Entry> := AllEntries(fs[..n], status);
      var all: seq<Entry> := AllEntries(fs, status);
      forall k | 0 <= k < |all|
        ensures all[k].status == status && PrintsOneOf(all[k], fs)
      {
        if k < |before| {
          assert all[k] == before[k];
          PrintsAlso(all[k], fs);
        } else {
          assert all[k] == EntryFor(fs[n], fs[n].citations[k - |before|], status);
          assert Prints(all[k], fs[n]);
        }
      }
    }
  }

  lemma PrintsAlso(e: Entry, fs: seq<Finding>)
    requires fs != [] && PrintsOneOf(e, fs[..|fs| - 1])
    ensures PrintsOneOf(e, fs)
  {
    var j :| 0 <= j < |fs| - 1 && Prints(e, fs[..|fs| - 1][j]);
    assert Prints(e, fs[j]);
  }

  lemma FindingKeys(f: Finding, status: CiteStatus)
    ensures forall key :: Logged(EntriesOf(f, status), key) <==> CitedBy(f, |f.citations|, key)
  {
    var all := EntriesOf(f, status);
    assert forall k :: 0 <= k < |all| ==> all[k].key == KeyOf(f, f.citations[k]);
    forall key
      ensures Logged(all, key) <==> CitedBy(f, |f.citations|, key)
    {
      if Logged(all, key) {
        var k :| 0 <= k < |all| && all[k].key == key;
        assert KeyOf(f, f.citations[k]) == key;
      }
      if CitedBy(f, |f.citations|, key) {
        var k :| 0 <= k < |f.citations| && KeyOf(f, f.citations[k]) == key;
        assert all[k].key == key;
      }
    }
  }

  lemma LoggedJoin(a: seq<Entry>, b: seq<Entry>, key: string)
    ensures Logged(a + b, key) <==> Logged(a, key) || Logged(b, key)
  {
    if Logged(a, key) {
      var k :| 0 <= k < |a| && a[k].key == key;
      assert (a + b)[k].key == key;
    }
    if Logged(b, key) {
      var k :| 0 <= k < |b| && b[k].key == key;
      assert (a + b)[|a| + k].key == key;
    }
  }

  lemma {:induction false} AllEntriesKeys(fs: seq<Finding>, status: CiteStatus)
    ensures forall key :: Logged(AllEntries(fs, status), key) <==> Cited(fs, key)
  {
    if fs != [] {
      var n := |fs| - 1;
      AllEntriesKeys(fs[..n], status);
      FindingKeys(fs[n], status);
      CitedFirst(fs, n);
      assert fs[..n + 1] == fs;
      forall key
        ensures Logged(AllEntries(fs, status), key) <==>
                Logged(AllEntries(fs[..n], status), key) || Logged(EntriesOf(fs[n], status), key)
      {
        LoggedJoin(AllEntries(fs[..n], status), EntriesOf(fs[n], status), key);
      }
    }
  }

  ghost predicate CitedBy(f: Finding, n: int, key: string) {
    exists k :: 0 <= k < n && k < |f.citations| && KeyOf(f, f.citations[k]) == key
  }

  ghost predicate KeysUnrepeated(entries: seq<Entry>) {
    forall j, k :: 0 <= j < k < |entries| ==> entries[j].key != entries[k].key
  }

  ghost predicate SeenIs(seen: set<string>, entries: seq<Entry>) {
    forall key :: key in seen <==> Logged(entries, key)
  }

  function CountStatus(entries: seq<Entry>, status: CiteStatus): nat {
    if entries == [] then 0
    else CountStatus(entries[..|entries| - 1], status) + if entries[|entries| - 1].status == status then 1 else 0
  }

  lemma {:induction false} StatusesAddUp(entries: seq<Entry>)
    ensures CountStatus(entries, Verified) + CountStatus(entries, WasDropped) == |entries|
  {
    if entries != [] {
      StatusesAddUp(entries[..|entries| - 1]);
    }
  }

  lemma LoggedSnoc(entries: seq<Entry>, e: Entry, key: string)
    ensures Logged(entries + [e], key) <==> Logged(entries, key) || e.key == key
  {
    if e.key == key {
      assert (entries + [e])[|entries|].key == key;
    }
    if Logged(entries, key) {
      var k :| 0 <= k < |entries| && entries[k].key == key;
      assert (entries + [e])[k].key == key;
    }
  }

  /** Add the citations of one finding that are not logged yet. */
  method AddFinding(f: Finding, status: CiteStatus, seen: set<string>, entries: seq<Entry>)
    returns (seen': set<string>, entries': seq<Entry>)
    requires SeenIs(seen, entries)
    ensures SeenIs(seen', entries') && entries' == Offered(entries, EntriesOf(f, status))
  {
    seen', entries' := seen, entries;
    ghost var all := EntriesOf(f, status);
    for k := 0 to |f.citations|
      invariant SeenIs(seen', entries') && entries' == Offered(entries, all[..k])
    {
      var c := f.citations[k];
      var key := KeyOf(f, c);
      OfferedSnoc(entries, all, k);
      if key in seen' {
        continue;
      }
      LoggedAlso(entries', EntryFor(f, c, status));
      seen' := seen' + {key};
      entries' := entries' + [EntryFor(f, c, status)];
    }
    assert all[..|all|] == all;
  }

  lemma CitedFirst(fs: seq<Finding>, n: nat)
    requires n < |fs|
    ensures forall key :: Cited(fs[..n + 1], key) <==> Cited(fs[..n], key) || CitedBy(fs[n], |fs[n].citations|, key)
  {
    assert forall k :: 0 <= k < n ==> fs[..n + 1][k] == fs[..n][k];
    assert fs[..n + 1][n] == fs[n];
  }

  /** `addEntries`. */
  method AddEntries(fs: seq<Finding>, status: CiteStatus, seen: set<string>, entries: seq<Entry>)
    returns (seen': set<string>, entries': seq<Entry>)
    requires SeenIs(seen, entries) && KeysUnrepeated(entries)
    ensures SeenIs(seen', entries') && KeysUnrepeated(entries') && entries <= entries'
    ensures entries' == Offered(entries, AllEntries(fs, status))
    ensures forall key :: Logged(entries', key) <==> Logged(entries, key) || Cited(fs, key)
    ensures forall k :: |entries| <= k < |entries'| ==> entries'[k].status == status && PrintsOneOf(entries'[k], fs)
  {
    seen', entries' := seen, entries;
    for k := 0 to |fs|
      invariant SeenIs(seen', entries') && entries' == Offered(entries, AllEntries(fs[..k], status))
    {
      assert fs[..k + 1][..k] == fs[..k];
      OfferedAppend(entries, AllEntries(fs[..k], status), EntriesOf(fs[k], status));
      seen', entries' := AddFinding(fs[k], status, seen', entries');
    }
    assert fs[..|fs|] == fs;
    OfferedFacts(entries, fs, status);
  }

  lemma OfferedFacts(entries: seq<Entry>, fs: seq<Finding>, status: CiteStatus)
    requires KeysUnrepeated(entries)
    ensures var r := Offered(entries, AllEntries(fs, status));
            KeysUnrepeated(r) && entries <= r
            && (forall key :: Logged(r, key) <==> Logged(entries, key) || Cited(fs, key))
            && forall k :: |entries| <= k < |r| ==> r[k].status == status && PrintsOneOf(r[k], fs)
  {
    var all := AllEntries(fs, status);
    OfferedUnrepeated(entries, all);
    OfferedLogs(entries, all);
    AllEntriesKeys(fs, status);
    AllEntriesPrint(fs, status);
    forall k | |entries| <= k < |Offered(entries, all)|
      ensures Offered(entries, all)[k].status == status && PrintsOneOf(Offered(entries, all)[k], fs)
    {
      OfferedIsFirst(entries, all, k);
    }
  }

  lemma LaterIsNew(first: seq<Entry>, entries: seq<Entry>, k: nat)
    requires first <= entries && KeysUnrepeated(entries) && |first| <= k < |entries|
    ensures !Logged(first, entries[k].key)
  {
    forall j | 0 <= j < |first|
      ensures first[j].key != entries[k].key
    {
      assert first[j] == entries[j];
    }
  }

  /**
   * Section (h): one entry per citation key of either list, once; an entry is marked verified
   * exactly when a retained finding cites under its key; verified and dropped add up.
   */
  method CitationLog(retained: seq<Finding>, dropped: seq<Finding>)
    returns (entries: seq<Entry>, verified: nat, droppedCount: nat)
    ensures entries == Offered([], AllEntries(retained, Verified) + AllEntries(dropped, WasDropped))
    ensures KeysUnrepeated(entries)
    ensures forall key :: Logged(entries, key) <==> Cited(retained, key) || Cited(dropped, key)
    ensures forall k :: 0 <= k < |entries| ==> (entries[k].status == Verified <==> Cited(retained, entries[k].key))
    ensures forall k :: 0 <= k < |entries| ==>
                          PrintsOneOf(entries[k], if entries[k].status == Verified then retained else dropped)
    ensures verified == CountStatus(entries, Verified) && droppedCount == CountStatus(entries, WasDropped)
    ensures verified + droppedCount == |entries|
  {
    var seen: set<string> := {};
    var first: seq<Entry>;
    seen, first := AddEntries(retained, Verified, seen, []);
    seen, entries := AddEntries(dropped, WasDropped, seen, first);
    OfferedAppend([], AllEntries(retained, Verified), AllEntries(dropped, WasDropped));
    StatusesAddUp(entries);
    verified := CountStatus(entries, Verified);
    droppedCount := CountStatus(entries, WasDropped);
    forall k | 0 <= k < |entries|
      ensures entries[k].status == Verified <==> Cited(retained, entries[k].key)
    {
      if k < |first| {
        assert entries[k] == first[k] && Logged(first, first[k].key);
      } else if Cited(retained, entries[k].key) {
        LaterIsNew(first, entries, k);
      }
    }
  }

  // ---- The key ----

  predicate NoBar(s: string) {
    '|' !in s
  }

  lemma BarSooner(a: string, x: string, b: string, y: string)
    requires NoBar(b) && |a| < |b|
    ensures a + "|" + x != b + "|" + y
  {
    assert (a + "|" + x)[|a|] == '|' && (b + "|" + y)[|a|] == b[|a|];
  }

  /** A field without a bar can be read back from what follows it. */
  lemma FirstBar(a: string, x: string, b: string, y: string)
    requires NoBar(a) && NoBar(b)
    ensures a + "|" + x == b + "|" + y <==> a == b && x == y
  {
    var s, t := a + "|" + x, b + "|" + y;
    if |a| < |b| {
      BarSooner(a, x, b, y);
    } else if |b| < |a| {
      BarSooner(b, y, a, x);
    } else if s == t {
      assert a == s[..|a|] && b == t[..|b|] && x == s[|a| + 1..] && y == t[|b| + 1..];
    }
  }

  /** The key, read from its first field on. */
  function KeyFrom(f: Finding, c: Citation): string {
    f.id + "|" + (Text(c.volume) + "|" + (Text(c.page) + "|" + (Text(c.line) + "|" + c.excerpt)))
  }

  lemma KeyIsKeyFrom(f: Finding, c: Citation)
    ensures KeyOf(f, c) == KeyFrom(f, c)
  {
  }

  ghost predicate Barless(f: Finding, c: Citation) {
    NoBar(f.id) && NoBar(Text(c.volume)) && NoBar(Text(c.page)) && NoBar(Text(c.line))
  }

  /** Where no field before the excerpt holds a bar, two citations share a key exactly when finding and fields agree. */
  lemma KeysAgree(f: Finding, c: Citation, g: Finding, d: Citation)
    requires Barless(f, c) && Barless(g, d)
    ensures KeyOf(f, c) == KeyOf(g, d) <==>
              && f.id == g.id && Text(c.volume) == Text(d.volume) && Text(c.page) == Text(d.page)
              && Text(c.line) == Text(d.line) && c.excerpt == d.excerpt
  {
    KeyIsKeyFrom(f, c);
    KeyIsKeyFrom(g, d);
    var c3, d3 := Text(c.line) + "|" + c.excerpt, Text(d.line) + "|" + d.excerpt;
    var c2, d2 := Text(c.page) + "|" + c3, Text(d.page) + "|" + d3;
    FirstBar(Text(c.line), c.excerpt, Text(d.line), d.excerpt);
    FirstBar(Text(c.page), c3, Text(d.page), d3);
    FirstBar(Text(c.volume), c2, Text(d.volume), d2);
    FirstBar(f.id, Text(c.volume) + "|" + c2, g.id, Text(d.volume) + "|" + d2);
  }

  // ---- Screens and severities ----

  /** Each screen's name, in the packet's own spelling. */
  function NameOf(s: Screen): string {
    match s
    case PRESERVED_ERROR => "preserved_error"
    case IAC => "iac"
    case BRADY => "brady"
    case JUNK_SCIENCE => "junk_science"
    case SENTENCING => "sentencing"
    case VOIR_DIRE => "voir_dire"
    case IDENTIFICATION => "identification"
    case PLEA_LANE => "plea_lane"
    case OTHER => "other"
  }

  lemma NamesRead(name: string, s: Screen)
    ensures ScreenNamed(name) == Some(s) <==> s != OTHER && name == NameOf(s)
  {
    assert |"preserved_error"| == 15 && |"iac"| == 3 && |"brady"| == 5 && |"junk_science"| == 12;
    assert |"sentencing"| == 10 && |"voir_dire"| == 9 && |"identification"| == 14 && |"plea_lane"| == 9;
    assert "voir_dire"[0] != "plea_lane"[0];
  }

  /** A finding's screen is the one its screen names; else the one its category names; else other. */
  lemma ScreenOfExactly(f: Finding, s: Screen)
    requires s != OTHER
    ensures ScreenOf(f) == s <==>
              || f.screen == Some(NameOf(s))
              || (f.category == NameOf(s) && (f.screen.None? || forall o :: o != OTHER ==> f.screen.value != NameOf(o)))
  {
    NamesRead(f.category, s);
    if f.screen.Some? {
      forall o: Screen
        ensures ScreenNamed(f.screen.value) == Some(o) <==> o != OTHER && f.screen.value == NameOf(o)
      {
        NamesRead(f.screen.value, o);
      }
    }
  }

  /** Dispositive findings come first, then supportive, then background, then any other. */
  lemma SeveritiesOrdered(severity: string)
    ensures SeverityRank("dispositive") < SeverityRank("supportive") < SeverityRank("background")
    ensures severity != "dispositive" && severity != "supportive" && severity != "background" ==>
              SeverityRank("background") < SeverityRank(severity)
  {
    assert |"dispositive"| == 11 && |"supportive"| == 10 && |"background"| == 10 && "supportive"[0] != "background"[0];
  }

  /** Which vehicles weigh a screen, and which screen each puts first. */
  lemma ScreensWeighed(v: Vehicle)
    ensures var w := Weighted(v);
            && (PRESERVED_ERROR in w <==> v == DirectAppeal || v == PdrClock || v == Art1107 || v == Federal2254)
            && (IAC in w <==> v != PdrClock) && (BRADY in w <==> v != PdrClock && v != Art1109)
            && (JUNK_SCIENCE in w <==> v == DirectAppeal || v == Art1107 || v == Art11071 || v == Federal2254)
            && w != [] && w <= ScreenOrder(v)
            && w[0] == (if v == DirectAppeal || v == PdrClock then PRESERVED_ERROR
                        else if v == Art11072 || v == Art1109 then PLEA_LANE else IAC)
  {
  }

  lemma MoreScreensWeighed(v: Vehicle)
    ensures var w := Weighted(v);
            && (SENTENCING in w <==> v != Art11071 && v != Federal2254)
            && (IDENTIFICATION in w <==> v == DirectAppeal || v == Art1107 || v == Federal2254)
            && (PLEA_LANE in w <==> v == Art1107 || v == Art11072 || v == Art1109)
            && (VOIR_DIRE in w <==> v == DirectAppeal)
  {
  }
}
