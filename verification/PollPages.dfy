/** A list that changes between two fetches of one poll: pages are found by position, so an edit of an
    event that was already pulled shifts the rest, and the event at the page boundary is skipped. */
module PollPages {
  import opened Text
  import opened Poller
  import opened PollRuns

  /** The list after an edit: the new version of event i stands at the end. */
  function Edited(list: seq<Event>, i: nat, e: Event): (edited: seq<Event>)
    requires i < |list|
    ensures |edited| == |list|
    ensures forall j :: 0 <= j < |list| ==>
      edited[j] == if j < i then list[j] else if j < |list| - 1 then list[j + 1] else e
  {
    list[..i] + list[i + 1..] + [e]
  }

  /** A poll during which event i of the list becomes e, right after the fetch of page `last`. */
  datatype Setting = Setting(db: Db, list: seq<Event>, i: nat, e: Event, last: nat, clock: Clock, floor: int) {

    function From(): Option<int> {
      Since(db, clock.begin)
    }

    /** The first visible position before the edit. */
    function V(): nat {
      FirstVisible(list, From())
    }

    /** The number of events pulled before the edit. */
    function Before(): nat {
      (last + 1) * PAGE
    }

    /** Everything the poll loses was covered, the pages up to `last` are full, and the edit is one. */
    ghost predicate Valid() {
      && Stable(list) && (if db.coldStart then floor == clock.begin - WEEK else NothingLost(db, list, floor))
      && last < MAX_PAGES - 1 && V() + Before() <= |list|
      && i < |list| && e.id == list[i].id && e.ts > list[i].ts && (forall x :: x in list ==> x.ts <= e.ts)
      && !Settled(db, e)
    }

    function After(): seq<Event>
      requires i < |list|
    {
      Edited(list, i, e)
    }

    /** The first visible position after it. */
    function W(): nat {
      if i < V() then V() - 1 else V()
    }

    function Lists(): Snapshots
      requires i < |list|
    {
      var lists := seq(MAX_PAGES, p requires 0 <= p < MAX_PAGES => if p <= last then list else After());
      assert |lists| == MAX_PAGES;
      lists
    }

    function Pulled_(): seq<Event>
      requires i < |list|
    {
      PulledFrom(Lists(), From(), 0)
    }

    function Result(): Db
      requires i < |list|
    {
      CompletedOver(db, Lists(), clock)
    }

    /** The number of positions, from the first visible one, that the pages of the poll reach. */
    function Reach(): nat {
      if V() <= |list| then Min(MAX_PAGES * PAGE, |list| - V()) else 0
    }

    /** Where the pages after the edit begin in the new list. */
    function Resume(): nat {
      W() + Before()
    }

    /** Where the pages after the edit end in the new list. */
    function End(): nat {
      Min(W() + MAX_PAGES * PAGE, |list|)
    }

    /** The position in the old list of the event behind the last page before the edit. */
    function Boundary(): nat {
      V() + Before()
    }
  }

  // ----- The list after the edit -----

  /** Where an event of the new list stood in the old one. */
  function Origin(s: Setting, j: nat): nat {
    if j < s.i then j else j + 1
  }

  lemma StableAt(list: seq<Event>, j: nat, k: nat)
    requires Stable(list) && j < k < |list|
    ensures 0 < list[j].ts <= list[k].ts && list[j].id != list[k].id
  {
  }

  /** The new list in terms of the old one. */
  lemma AfterAt(s: Setting, j: nat)
    requires s.Valid() && j < |s.list|
    ensures j < |s.list| - 1 ==>
      s.After()[j] == s.list[Origin(s, j)] && s.After()[j].ts <= s.e.ts && s.After()[j].id != s.e.id
    ensures j == |s.list| - 1 ==> s.After()[j] == s.e
    ensures s.After()[j].ts > 0
  {
    hide Settled, NothingLost, Stable;
    if j < |s.list| - 1 {
      var o := Origin(s, j);
      assert s.list[o] in s.list;
      StableAt(s.list, if o < s.i then o else s.i, if o < s.i then s.i else o);
    }
    if s.i + 1 < |s.list| {
      StableAt(s.list, s.i, s.i + 1);
    } else if s.i > 0 {
      StableAt(s.list, 0, s.i);
    } else {
      OnlyOne(s.list);
    }
  }

  lemma OnlyOne(list: seq<Event>)
    requires Stable(list) && list != []
    ensures list[0].ts > 0
  {
  }

  lemma EditedIsStable(s: Setting)
    requires s.Valid()
    ensures Stable(s.After())
  {
    hide Settled, NothingLost, Edited;
    var after := s.After();
    forall j | 0 <= j < |after| ensures after[j].ts > 0 {
      AfterAt(s, j);
    }
    forall j, k | 0 <= j < k < |after| ensures after[j].ts <= after[k].ts && after[j].id != after[k].id {
      EditedInOrder(s, j, k);
    }
  }

  lemma EditedInOrder(s: Setting, j: nat, k: nat)
    requires s.Valid() && j < k < |s.list|
    ensures s.After()[j].ts <= s.After()[k].ts && s.After()[j].id != s.After()[k].id
  {
    hide Settled, NothingLost, Edited, Stable;
    AfterAt(s, j);
    AfterAt(s, k);
    if k < |s.list| - 1 {
      StableAt(s.list, Origin(s, j), Origin(s, k));
    }
  }

  lemma FirstVisibleIs(server: seq<Event>, since: Option<int>, m: nat)
    requires Stable(server) && m <= |server|
    requires m < |server| ==> Changed(server[m], since)
    requires m > 0 ==> !Changed(server[m - 1], since)
    ensures FirstVisible(server, since) == m
  {
    hide Changed, Stable;
    if m < |server| {
      FirstIsFirst(server, since, m);
    }
    if m > 0 {
      StaysBehind(server, since, m - 1);
    }
  }

  lemma LaterIsChanged(list: seq<Event>, since: Option<int>, e: Event)
    requires Stable(list) && FirstVisible(list, since) < |list| && forall x :: x in list ==> x.ts <= e.ts
    ensures Changed(e, since)
  {
    assert list[FirstVisible(list, since)] in list;
  }

  lemma VisibleAfter(s: Setting)
    requires s.Valid()
    ensures FirstVisible(s.After(), s.From()) == s.W()
  {
    hide Changed, Stable, Settled, NothingLost, Edited;
    EditedIsStable(s);
    LaterIsChanged(s.list, s.From(), s.e);
    var m, v := s.W(), s.V();
    AfterAt(s, m);
    if m < |s.list| - 1 {
      ChangedFrom(s.list, s.From(), Origin(s, m));
    }
    if m > 0 {
      AfterAt(s, m - 1);
    }
    FirstVisibleIs(s.After(), s.From(), m);
  }

  // ----- What is pulled -----

  lemma JoinSlices(v: seq<Event>, a: nat, b: nat, c: nat, rest: seq<Event>)
    requires a <= b <= c <= |v|
    ensures v[a..b] + (v[b..c] + rest) == v[a..c] + rest
  {
    assert v[a..b] + v[b..c] == v[a..c];
  }

  lemma PullOne(lists: Snapshots, since: Option<int>, page: nat, visible: seq<Event>)
    requires page < MAX_PAGES && Visible(lists[page], since) == visible && (page + 1) * PAGE <= |visible|
    ensures PulledFrom(lists, since, page)
         == visible[page * PAGE..(page + 1) * PAGE] + PulledFrom(lists, since, page + 1)
  {
    hide Visible;
  }

  lemma {:induction false} FullPages(lists: Snapshots, since: Option<int>, page: nat, last: nat, visible: seq<Event>)
    requires page <= last + 1 <= MAX_PAGES && (last + 1) * PAGE <= |visible|
    requires forall p :: page <= p <= last ==> Visible(lists[p], since) == visible
    ensures PulledFrom(lists, since, page)
         == visible[page * PAGE..(last + 1) * PAGE] + PulledFrom(lists, since, last + 1)
    decreases last + 1 - page
  {
    hide Visible, PulledFrom;
    if page <= last {
      FullPages(lists, since, page + 1, last, visible);
      PullOne(lists, since, page, visible);
      JoinSlices(visible, page * PAGE, (page + 1) * PAGE, (last + 1) * PAGE, PulledFrom(lists, since, last + 1));
    } else {
      assert visible[page * PAGE..(last + 1) * PAGE] == [];
    }
  }

  lemma SliceOfTail(list: seq<Event>, v: nat, a: nat, b: nat)
    requires v <= |list| && a <= b <= |list| - v
    ensures list[v..][a..b] == list[v + a..v + b]
  {
  }

  lemma PulledOver(lists: Snapshots, since: Option<int>, last: nat, v1: seq<Event>, v2: seq<Event>)
    requires last + 1 <= MAX_PAGES && (last + 1) * PAGE <= |v1| && (last + 1) * PAGE <= |v2|
    requires forall p :: 0 <= p <= last ==> Visible(lists[p], since) == v1
    requires forall p :: last < p < MAX_PAGES ==> Visible(lists[p], since) == v2
    ensures PulledFrom(lists, since, 0)
         == v1[0..(last + 1) * PAGE] + v2[(last + 1) * PAGE..Min(MAX_PAGES * PAGE, |v2|)]
  {
    hide Visible, PulledFrom;
    FullPages(lists, since, 0, last, v1);
    SteadyPages(lists, since, last + 1, v2);
  }

  lemma VisibleParts(s: Setting)
    requires s.Valid()
    ensures s.V() <= |s.list| && s.W() <= |s.list|
    ensures Visible(s.list, s.From()) == s.list[s.V()..] && Visible(s.After(), s.From()) == s.After()[s.W()..]
  {
    hide Stable, Settled, NothingLost, Visible, Edited, Changed;
    EditedIsStable(s);
    VisibleAfter(s);
    VisibleIsSuffix(s.list, s.From());
    VisibleIsSuffix(s.After(), s.From());
  }

  lemma ListsAre(s: Setting, p: nat)
    requires s.i < |s.list| && p < MAX_PAGES
    ensures s.Lists()[p] == if p <= s.last then s.list else s.After()
  {
  }

  lemma CountParts(list: seq<Event>, after: seq<Event>, v: nat, boundary: nat, resume: nat, end: nat,
                   pulled: seq<Event>)
    requires v <= boundary <= |list| && resume <= end <= |after|
    requires pulled == list[v..boundary] + after[resume..end]
    ensures |pulled| == (boundary - v) + (end - resume)
    ensures resume < end ==> pulled[|pulled| - 1] == after[end - 1]
  {
  }

  lemma PulledSlices(lists: Snapshots, since: Option<int>, last: nat, list: seq<Event>, after: seq<Event>,
                     v: nat, w: nat, boundary: nat, resume: nat, end: nat)
    requires last + 1 <= MAX_PAGES && |after| == |list|
    requires boundary == v + (last + 1) * PAGE <= |list| && resume == w + (last + 1) * PAGE <= |list|
    requires end == Min(w + MAX_PAGES * PAGE, |list|)
    requires forall p :: 0 <= p <= last ==> Visible(lists[p], since) == list[v..]
    requires forall p :: last < p < MAX_PAGES ==> Visible(lists[p], since) == after[w..]
    ensures PulledFrom(lists, since, 0) == list[v..boundary] + after[resume..end]
    ensures |PulledFrom(lists, since, 0)| == (last + 1) * PAGE + (end - resume)
    ensures resume < end ==> PulledFrom(lists, since, 0)[|PulledFrom(lists, since, 0)| - 1] == after[end - 1]
  {
    hide Visible, PulledFrom;
    var b := (last + 1) * PAGE;
    PulledOver(lists, since, last, list[v..], after[w..]);
    SliceOfTail(list, v, 0, b);
    SliceOfTail(after, w, b, Min(MAX_PAGES * PAGE, |list| - w));
    CountParts(list, after, v, boundary, resume, end, PulledFrom(lists, since, 0));
  }

  lemma ListsShow(s: Setting)
    requires s.Valid()
    ensures forall p :: 0 <= p <= s.last ==> Visible(s.Lists()[p], s.From()) == s.list[s.V()..]
    ensures forall p :: s.last < p < MAX_PAGES ==> Visible(s.Lists()[p], s.From()) == s.After()[s.W()..]
  {
    hide Stable, Settled, NothingLost, Visible, Edited, Changed, FirstVisible;
    VisibleParts(s);
    forall p | 0 <= p < MAX_PAGES ensures s.Lists()[p] == if p <= s.last then s.list else s.After() {
      ListsAre(s, p);
    }
  }

  /** The pages before the edit are a slice of the old list, those after it a slice of the new one. */
  lemma PulledIs(s: Setting)
    requires s.Valid()
    ensures s.Boundary() <= |s.list| && s.Resume() <= s.End() <= |s.list| == |s.After()|
    ensures s.Pulled_() == s.list[s.V()..s.Boundary()] + s.After()[s.Resume()..s.End()]
    ensures |s.Pulled_()| == (s.last + 1) * PAGE + (s.End() - s.Resume())
    ensures s.Resume() < s.End() ==> s.Pulled_()[|s.Pulled_()| - 1] == s.After()[s.End() - 1]
  {
    hide *;
    Fits(s);
    ListsShow(s);
    PulledSlices(s.Lists(), s.From(), s.last, s.list, s.After(), s.V(), s.W(), s.Boundary(), s.Resume(), s.End());
    Shape(s);
  }

  lemma Shape(s: Setting)
    requires s.i < |s.list|
    ensures s.Pulled_() == PulledFrom(s.Lists(), s.From(), 0)
  {
    hide PulledFrom, FirstVisible;
  }

  lemma Fits(s: Setting)
    requires s.Valid()
    ensures s.last + 1 <= MAX_PAGES && s.i < |s.list| == |s.After()|
    ensures s.V() <= s.Boundary() == s.V() + (s.last + 1) * PAGE <= |s.list|
    ensures s.Resume() == s.W() + (s.last + 1) * PAGE <= s.End() == Min(s.W() + MAX_PAGES * PAGE, |s.list|) <= |s.list|
  {
    hide Stable, Settled, NothingLost, Edited;
  }

  /** Everything pulled is an event of the old list or the edited one. */
  lemma PulledWhere(s: Setting, x: Event)
    requires s.Valid() && x in s.Pulled_()
    ensures x in s.list || x == s.e
  {
    hide Stable, Settled, NothingLost, PulledFrom, Edited;
    PulledIs(s);
    if x !in s.list[s.V()..s.Boundary()] {
      var j :| s.Resume() <= j < s.End() && s.After()[j] == x;
      AfterAt(s, j);
    }
  }

  lemma PulledBefore(s: Setting, a: nat)
    requires s.Valid() && s.V() <= a < s.Boundary()
    ensures a < |s.list| && s.list[a] in s.Pulled_()
  {
    hide *;
    Fits(s);
    PulledIs(s);
    InSlice(s.list, s.V(), s.Boundary(), a);
  }

  lemma PulledAfter(s: Setting, m: nat)
    requires s.Valid() && s.Resume() <= m < s.End()
    ensures m < |s.list| && s.After()[m] in s.Pulled_()
  {
    hide *;
    Fits(s);
    PulledIs(s);
    InSlice(s.After(), s.Resume(), s.End(), m);
  }

  lemma InSlice(list: seq<Event>, a: nat, b: nat, j: nat)
    requires a <= j < b <= |list|
    ensures list[j] in list[a..b]
  {
    assert list[a..b][j - a] == list[j];
  }

  /** Where a pulled event comes from. */
  lemma PulledFromWhere(s: Setting, x: Event)
    requires s.Valid() && x in s.Pulled_()
    ensures (exists a: nat :: s.V() <= a < s.Boundary() && a < |s.list| && s.list[a] == x)
         || (exists m: nat :: s.Resume() <= m < s.End() && m < |s.After()| && s.After()[m] == x)
  {
    hide *;
    Fits(s);
    PulledIs(s);
    if x in s.list[s.V()..s.Boundary()] {
      SliceMember(s.list, s.V(), s.Boundary(), x);
    } else {
      SliceMember(s.After(), s.Resume(), s.End(), x);
    }
  }

  lemma SliceMember(list: seq<Event>, a: nat, b: nat, x: Event)
    requires a <= b <= |list| && x in list[a..b]
    ensures exists j: nat :: a <= j < b && j < |list| && list[j] == x
  {
    var j :| 0 <= j < b - a && list[a..b][j] == x;
    assert list[a + j] == x;
  }

  /** An event of the old list that is not edited has no other version among the pulled ones. */
  lemma NoOtherVersion(s: Setting, j: nat, x: Event)
    requires s.Valid() && j < |s.list| && j != s.i && x in s.Pulled_()
    ensures x.id == s.list[j].id ==> x == s.list[j]
  {
    PulledWhere(s, x);
    hide Settled, NothingLost, Stable, Edited, Setting.Pulled_;
    if x in s.list {
      var a :| 0 <= a < |s.list| && s.list[a] == x;
      if a < j { StableAt(s.list, a, j); }
      if j < a { StableAt(s.list, j, a); }
    } else {
      StableAt(s.list, if j < s.i then j else s.i, if j < s.i then s.i else j);
    }
  }

  // ----- What the poll settles -----

  /** Handling keeps an event settled, and settles it if it is handled, unless another version comes. */
  lemma {:induction false} HandledOrKept(db: Db, es: seq<Event>, y: Event)
    requires (Settled(db, y) || y in es) && forall x :: x in es && x.id == y.id ==> x == y
    ensures Settled(HandleAll(db, es), y)
  {
    if es != [] {
      hide Settled, Handle;
      var init, x := es[..|es| - 1], es[|es| - 1];
      assert es == init + [x];
      if x.id == y.id {
        HandleSettles(HandleAll(db, init), y);
      } else {
        HandledOrKept(db, init, y);
        HandleKeepsOthers(HandleAll(db, init), x, y);
      }
    }
  }

  lemma LastIsSettled(db: Db, es: seq<Event>)
    requires es != []
    ensures Settled(HandleAll(db, es), es[|es| - 1])
  {
    hide Settled, Handle;
    HandleSettles(HandleAll(db, es[..|es| - 1]), es[|es| - 1]);
  }

  lemma ResultSettles(s: Setting, y: Event)
    requires s.i < |s.list|
    ensures Settled(s.Result(), y) == Settled(HandleAll(s.db, s.Pulled_()), y)
    ensures s.Result().cursor == Some(NewCursor(s.Pulled_(), s.clock.finish))
  {
    hide Settled, HandleAll, NewCursor, PulledFrom, Setting.Lists;
    CursorIrrelevant(HandleAll(s.db, s.Pulled_()), s.Result().cursor, false, y);
  }

  /** An event of the old list that is not edited is settled by the poll exactly when it is pulled or was
      settled before. */
  lemma OldSettledIff(s: Setting, j: nat)
    requires s.Valid() && j < |s.list| && j != s.i
    ensures Settled(s.Result(), s.list[j]) <==> Settled(s.db, s.list[j]) || s.list[j] in s.Pulled_()
  {
    hide Settled, HandleAll, NothingLost, Stable, Edited, Setting.Pulled_, Setting.Result;
    var y, pulled := s.list[j], s.Pulled_();
    forall x | x in pulled ensures x.id == y.id ==> x == y {
      NoOtherVersion(s, j, x);
    }
    ResultSettles(s, y);
    if Settled(s.db, y) || y in pulled {
      HandledOrKept(s.db, pulled, y);
    } else {
      StaysUnsettled(s.db, pulled, y);
    }
  }

  // ----- The cursor -----

  lemma {:induction false} MaxAtMost(es: seq<Event>, t: int)
    requires t >= 0 && forall x :: x in es ==> x.ts <= t
    ensures MaxTs(es) <= t
  {
    if es != [] {
      MaxAtMost(es[..|es| - 1], t);
    }
  }

  lemma CursorAtMost(es: seq<Event>, t: int, finish: int)
    requires LastPageFull(es) && forall x :: x in es ==> 0 < x.ts <= t
    ensures NewCursor(es, finish) <= t
  {
    assert es[0] in es;
    MaxAtMost(es, t);
    MaxPositive(es);
  }

  lemma MaxPositive(es: seq<Event>)
    requires es != [] && es[|es| - 1].ts > 0
    ensures MaxTs(es) >= es[|es| - 1].ts
  {
  }

  lemma PulledPositive(s: Setting, x: Event)
    requires s.Valid() && x in s.Pulled_()
    ensures 0 < x.ts <= s.e.ts
  {
    PulledWhere(s, x);
    hide Settled, NothingLost, Edited, Setting.Pulled_;
    assert s.list[s.i].ts > 0;
  }

  /** Neither lost nor in danger: settled, or visible to the next poll. */
  ghost predicate Good(db: Db, y: Event) {
    db.cursor.Some? && (Settled(db, y) || y.ts >= db.cursor.value)
  }

  /** An event at least as late as everything pulled is not lost behind full pages. */
  lemma LateIsGood(s: Setting, y: Event)
    requires s.Valid() && LastPageFull(s.Pulled_()) && forall x :: x in s.Pulled_() ==> x.ts <= y.ts
    ensures Good(s.Result(), y)
  {
    hide Settled, NothingLost, Stable, Edited, Setting.Pulled_, Setting.Result, LastPageFull, NewCursor;
    forall x | x in s.Pulled_() ensures 0 < x.ts <= y.ts {
      PulledPositive(s, x);
    }
    ResultSettles(s, y);
    CursorAtMost(s.Pulled_(), y.ts, s.clock.finish);
  }

  lemma FullPull(pulled: seq<Event>, pages: nat)
    requires |pulled| == pages * PAGE && pages > 0
    ensures LastPageFull(pulled)
  {
  }

  lemma PulledCount(s: Setting)
    requires s.Valid()
    ensures s.Resume() <= s.End() <= |s.list| == |s.After()|
    ensures |s.Pulled_()| == (s.last + 1) * PAGE + (s.End() - s.Resume())
    ensures s.End() < |s.list| || s.Resume() == s.End() ==> LastPageFull(s.Pulled_())
    ensures s.Resume() < s.End() ==> s.Pulled_()[|s.Pulled_()| - 1] == s.After()[s.End() - 1]
  {
    hide *;
    Fits(s);
    PulledIs(s);
    if s.Resume() == s.End() {
      FullPull(s.Pulled_(), s.last + 1);
    } else if s.End() < |s.list| {
      AtTheCap(s);
      FullPull(s.Pulled_(), MAX_PAGES);
    }
  }

  lemma AtTheCap(s: Setting)
    requires s.End() < |s.list|
    ensures s.End() == s.W() + MAX_PAGES * PAGE && s.Resume() == s.W() + (s.last + 1) * PAGE
  {
    hide FirstVisible;
  }

  /** The new version itself is never lost. */
  lemma EditIsGood(s: Setting)
    requires s.Valid()
    ensures Good(s.Result(), s.e)
  {
    hide Settled, NothingLost, Stable, Edited, Setting.Pulled_, Setting.Result, LastPageFull, HandleAll;
    PulledCount(s);
    PulledIs(s);
    if s.Resume() < s.End() == |s.list| {
      AfterAt(s, |s.list| - 1);
      LastIsSettled(s.db, s.Pulled_());
      ResultSettles(s, s.e);
    } else {
      forall x | x in s.Pulled_() ensures x.ts <= s.e.ts {
        PulledPositive(s, x);
      }
      LateIsGood(s, s.e);
    }
  }

  // ----- The events that were not edited -----

  /** The edit moved the event at the boundary into a page that was already fetched. */
  predicate Shifts(s: Setting) {
    s.V() <= s.i < s.Boundary() < |s.list|
  }

  /** Which positions of the new list are pulled, not yet visible, or behind the cap. */
  lemma Places(s: Setting, m: nat)
    requires s.Valid() && m < |s.list| - 1
    ensures var o := Origin(s, m);
      && o < |s.list| && o != s.i
      && (m < s.W() ==> o < s.V())
      && (s.W() <= m < s.Resume() ==> s.V() <= o < s.Boundary() || (Shifts(s) && o == s.Boundary()))
      && (s.End() <= m ==> s.End() < |s.list| && o >= s.Boundary() && o != s.Boundary() - 1)
      && (Shifts(s) && o == s.Boundary() ==> m == s.Boundary() - 1)
  {
    Fits(s);
    hide Stable, Settled, NothingLost, FirstVisible, Edited;
  }

  /** An event that no poll sees any more was covered before. */
  lemma HiddenIsSettled(s: Setting, j: nat)
    requires s.Valid() && j < s.V() && j < |s.list| && s.list[j].ts >= s.floor
    ensures Settled(s.db, s.list[j])
  {
    hide Stable, Settled;
    assert !Changed(s.list[j], s.From());
  }

  lemma PulledBeforeOrEdit(s: Setting, x: Event, m: nat)
    requires s.Valid() && x in s.Pulled_() && s.End() <= m < |s.list|
    ensures x.ts <= s.After()[m].ts
  {
    PulledFromWhere(s, x);
    Fits(s);
    AfterAt(s, m);
    hide Settled, NothingLost, Stable, Edited, Setting.Pulled_, FirstVisible;
    if a: nat :| s.V() <= a < s.Boundary() && a < |s.list| && s.list[a] == x {
      if m < |s.list| - 1 {
        Places(s, m);
        StableAt(s.list, a, Origin(s, m));
      } else {
        PulledPositive(s, x);
      }
    } else {
      var r: nat :| s.Resume() <= r < s.End() && r < |s.After()| && s.After()[r] == x;
      EditedInOrder(s, r, m);
    }
  }

  /** Every event of the new list is good, except possibly the one at the boundary. */
  lemma OthersAreGood(s: Setting, m: nat)
    requires s.Valid() && m < |s.list| && s.After()[m].ts >= s.floor
    requires Shifts(s) ==> m != s.Boundary() - 1
    ensures Good(s.Result(), s.After()[m])
  {
    AfterAt(s, m);
    Fits(s);
    hide Settled, NothingLost, Stable, Edited, Setting.Pulled_, Setting.Result, FirstVisible, LastPageFull, HandleAll;
    var y := s.After()[m];
    ResultSettles(s, y);
    if m == |s.list| - 1 {
      EditIsGood(s);
    } else {
      Places(s, m);
      OldIsGood(s, m);
    }
  }

  lemma OldIsGood(s: Setting, m: nat)
    requires s.Valid() && m < |s.list| - 1 && s.After()[m] == s.list[Origin(s, m)] && s.After()[m].ts >= s.floor
    requires Shifts(s) ==> Origin(s, m) != s.Boundary()
    ensures Good(s.Result(), s.After()[m])
  {
    Places(s, m);
    hide Settled, NothingLost, Stable, Edited, Setting.Pulled_, Setting.Result, FirstVisible, LastPageFull, HandleAll,
         Setting.Valid, Setting.End, Setting.Resume, Setting.Boundary, Setting.W, Setting.V;
    var o := Origin(s, m);
    OldSettledIff(s, o);
    ResultSettles(s, s.list[o]);
    if m < s.W() {
      HiddenIsSettled(s, o);
    } else if m < s.Resume() {
      PulledBefore(s, o);
    } else if m < s.End() {
      PulledAfter(s, m);
    } else {
      forall x | x in s.Pulled_() ensures x.ts <= s.After()[m].ts {
        PulledBeforeOrEdit(s, x, m);
      }
      PulledCount(s);
      LateIsGood(s, s.After()[m]);
    }
  }

  // ----- The event at the boundary -----

  lemma BoundaryNotPulled(s: Setting)
    requires s.Valid() && Shifts(s)
    ensures s.list[s.Boundary()] !in s.Pulled_()
  {
    hide Settled, NothingLost, Stable, Edited, Setting.Pulled_, FirstVisible;
    var x := s.list[s.Boundary()];
    if x in s.Pulled_() {
      PulledFromWhere(s, x);
      if a: nat :| s.V() <= a < s.Boundary() && a < |s.list| && s.list[a] == x {
        StableAt(s.list, a, s.Boundary());
      } else {
        var r: nat :| s.Resume() <= r < s.End() && r < |s.After()| && s.After()[r] == x;
        NotAtBoundary(s, r);
      }
    }
  }

  lemma NotAtBoundary(s: Setting, r: nat)
    requires s.Valid() && Shifts(s) && s.Resume() <= r < |s.list|
    ensures s.After()[r] != s.list[s.Boundary()] && s.After()[r].ts >= s.list[s.Boundary()].ts
  {
    AfterAt(s, r);
    hide Settled, NothingLost, Stable, Edited, FirstVisible;
    if r < |s.list| - 1 {
      StableAt(s.list, s.Boundary(), Origin(s, r));
    } else {
      StableAt(s.list, s.i, s.Boundary());
      assert s.list[s.Boundary()] in s.list;
    }
  }

  /** The cursor the poll writes after such a shift, in terms of the lists. */
  function CursorAfter(s: Setting): int
    requires Shifts(s)
  {
    if s.Reach() % PAGE == 0 then s.After()[s.V() + s.Reach() - 1].ts else s.clock.finish
  }

  lemma {:induction false} MaxIsLast(es: seq<Event>)
    requires es != [] && es[|es| - 1].ts > 0 && forall x :: x in es ==> x.ts <= es[|es| - 1].ts
    ensures MaxTs(es) == es[|es| - 1].ts
  {
    MaxAtMost(es, es[|es| - 1].ts);
    MaxPositive(es);
  }

  lemma CursorByCount(es: seq<Event>, count: nat, finish: int)
    requires |es| == count > 0 && es[|es| - 1].ts > 0 && forall x :: x in es ==> x.ts <= es[|es| - 1].ts
    ensures NewCursor(es, finish) == if count % PAGE == 0 then es[|es| - 1].ts else finish
  {
    MaxIsLast(es);
  }

  lemma ShiftShape(s: Setting)
    requires s.Valid() && Shifts(s)
    ensures s.W() == s.V() && s.Resume() == s.Boundary() < s.End() == s.V() + s.Reach() <= |s.list|
    ensures (s.last + 1) * PAGE + (s.End() - s.Resume()) == s.Reach()
  {
    Fits(s);
    hide Stable, Settled, NothingLost, FirstVisible, Edited;
  }

  lemma LastPulled(s: Setting)
    requires s.Valid() && Shifts(s)
    ensures |s.Pulled_()| == s.Reach() > 0 && s.V() + s.Reach() <= |s.After()|
    ensures s.Pulled_()[s.Reach() - 1] == s.After()[s.V() + s.Reach() - 1]
  {
    hide *;
    ShiftShape(s);
    PulledCount(s);
    Fits(s);
  }

  lemma LastIsLatest(s: Setting)
    requires s.Valid() && Shifts(s)
    ensures |s.Pulled_()| == s.Reach() > 0 && s.Pulled_()[s.Reach() - 1].ts > 0
    ensures forall x :: x in s.Pulled_() ==> x.ts <= s.Pulled_()[s.Reach() - 1].ts
  {
    hide *;
    Fits(s);
    LastPulled(s);
    ShiftShape(s);
    forall x | x in s.Pulled_() ensures x.ts <= s.Pulled_()[s.Reach() - 1].ts {
      PulledUpToLast(s, x);
    }
    PulledPositive(s, s.Pulled_()[s.Reach() - 1]);
  }

  lemma CursorIs(s: Setting)
    requires s.Valid() && Shifts(s)
    ensures s.Result().cursor == Some(CursorAfter(s))
  {
    hide *;
    Fits(s);
    LastPulled(s);
    LastIsLatest(s);
    CursorByCount(s.Pulled_(), s.Reach(), s.clock.finish);
    ResultSettles(s, s.e);
    CursorShape(s, s.Pulled_());
  }

  lemma CursorShape(s: Setting, pulled: seq<Event>)
    requires Shifts(s) && |pulled| == s.Reach() > 0 && s.V() + s.Reach() <= |s.After()|
    requires pulled[s.Reach() - 1] == s.After()[s.V() + s.Reach() - 1]
    ensures CursorAfter(s) == if s.Reach() % PAGE == 0 then pulled[s.Reach() - 1].ts else s.clock.finish
  {
    hide FirstVisible, Edited;
  }

  lemma OldUpToLast(s: Setting, a: nat)
    requires s.Valid() && Shifts(s) && a < s.Boundary() < s.End() <= |s.list|
    ensures s.list[a].ts <= s.After()[s.End() - 1].ts
  {
    ShiftShape(s);
    hide Settled, NothingLost, Stable, Edited, FirstVisible;
    StableAt(s.list, a, s.Boundary());
    NotAtBoundary(s, s.End() - 1);
  }

  lemma NewUpToLast(s: Setting, r: nat, end: nat)
    requires s.Valid() && r < end <= |s.list|
    ensures s.After()[r].ts <= s.After()[end - 1].ts
  {
    hide Settled, NothingLost, Stable, Edited, FirstVisible;
    if r < end - 1 {
      EditedInOrder(s, r, end - 1);
    }
  }

  lemma PulledUpToLast(s: Setting, x: Event)
    requires s.Valid() && Shifts(s) && x in s.Pulled_()
    ensures s.Boundary() < s.End() <= |s.list| && x.ts <= s.After()[s.End() - 1].ts
  {
    hide *;
    Fits(s);
    ShiftShape(s);
    PulledFromWhere(s, x);
    if a: nat :| s.V() <= a < s.Boundary() && a < |s.list| && s.list[a] == x {
      OldUpToLast(s, a);
    } else {
      var r: nat :| s.Resume() <= r < s.End() && r < |s.After()| && s.After()[r] == x;
      NewUpToLast(s, r, s.End());
    }
  }

  /** The edit makes the poll lose an event: one at the boundary, not settled, at or after the floor, and
      stamped before the cursor that is written. */
  ghost predicate LosesBoundary(s: Setting) {
    && Shifts(s)
    && var x := s.list[s.Boundary()];
       x.ts >= s.floor && !Settled(s.db, x) && x.ts < CursorAfter(s)
  }

  lemma BoundaryAfter(s: Setting)
    requires s.Valid() && Shifts(s)
    ensures 0 <= s.Boundary() - 1 < |s.list| && s.After()[s.Boundary() - 1] == s.list[s.Boundary()]
  {
    ShiftShape(s);
    AfterAt(s, s.Boundary() - 1);
    hide Stable, Settled, NothingLost, FirstVisible, Edited;
  }

  lemma BoundaryGoodIff(s: Setting)
    requires s.Valid() && Shifts(s)
    ensures var x := s.list[s.Boundary()]; Good(s.Result(), x) <==> Settled(s.db, x) || x.ts >= CursorAfter(s)
  {
    hide Settled, NothingLost, Stable, Edited, Setting.Pulled_, Setting.Result, FirstVisible, Setting.Reach;
    OldSettledIff(s, s.Boundary());
    BoundaryNotPulled(s);
    CursorIs(s);
  }

  /** All events are good, except possibly the one that stood at the boundary. */
  ghost predicate OnlyBoundary(s: Setting, db: Db, after: seq<Event>, b: int) {
    forall m :: 0 <= m < |after| && after[m].ts >= s.floor && m != b ==> Good(db, after[m])
  }

  lemma AllOthersAreGood(s: Setting)
    requires s.Valid()
    ensures OnlyBoundary(s, s.Result(), s.After(), if Shifts(s) then s.Boundary() - 1 else -1)
  {
    Fits(s);
    hide Settled, Stable, Setting.Pulled_, Setting.Result, FirstVisible, Setting.Valid, Setting.Boundary, Setting.V,
         Setting.After, Good, NothingLost;
    forall m | 0 <= m < |s.list| && s.After()[m].ts >= s.floor && (Shifts(s) ==> m != s.Boundary() - 1)
      ensures Good(s.Result(), s.After()[m])
    {
      OthersAreGood(s, m);
    }
  }

  lemma BoundaryDecides(s: Setting, db: Db, after: seq<Event>, b: int)
    requires db.cursor.Some? && OnlyBoundary(s, db, after, b)
    ensures NothingLost(db, after, s.floor) <==> (0 <= b < |after| && after[b].ts >= s.floor ==> Good(db, after[b]))
  {
    hide Settled;
  }

  /** An event of the list is edited between two fetches of one poll. The poll loses something exactly when
      the edited event had been pulled, there is an event behind the pages fetched so far, and that event
      is not settled and stamped before the cursor that the poll writes: the last stamp it reaches
      if its last page is full, and the current time otherwise. */
  lemma EditBetweenFetchesIff(s: Setting)
    requires s.Valid()
    ensures NothingLost(s.Result(), s.After(), s.floor) <==> !LosesBoundary(s)
  {
    Fits(s);
    ResultSettles(s, s.e);
    AllOthersAreGood(s);
    BoundaryDecides(s, s.Result(), s.After(), if Shifts(s) then s.Boundary() - 1 else -1);
    if Shifts(s) {
      BoundaryAfter(s);
      BoundaryGoodIff(s);
    }
    hide Settled, Setting.Result, FirstVisible, Setting.Valid, Setting.Boundary, Setting.V, Setting.After, Good,
      NothingLost,
         CursorAfter, OnlyBoundary;
  }

  /** And the event stays lost: no later poll with a clock that does not fall behind that cursor handles it. */
  lemma LostStaysLost(s: Setting, db: Db, after: seq<Event>, b: nat, clocks: seq<Clock>)
    requires s.Valid() && LosesBoundary(s) && db == s.Result() && after == s.After() && b == s.Boundary()
    requires forall j :: 0 <= j < |clocks| ==> clocks[j].finish >= CursorAfter(s)
    ensures !Settled(Polls(db, after, clocks), s.list[b])
  {
    hide Stable, Settled, FirstVisible, Edited, Setting.Pulled_, Setting.Result, Polls, HandleAll;
    BoundaryAfter(s);
    CursorIs(s);
    OldSettledIff(s, b);
    BoundaryNotPulled(s);
    EditedIsStable(s);
    ResultIsWarm(s);
    LostForGood(db, after, b - 1, CursorAfter(s), clocks);
  }

  lemma ResultIsWarm(s: Setting)
    requires s.i < |s.list|
    ensures !s.Result().coldStart
  {
    hide HandleAll, PulledFrom;
  }

  // ----- Such an edit exists -----

  /** 101 events, one a second. */
  function Hundred(): (list: seq<Event>)
    ensures |list| == PAGE + 1 && forall j :: 0 <= j <= PAGE ==> list[j] == Event(Id(j), j + 1, true, "")
  {
    seq(PAGE + 1, j requires 0 <= j <= PAGE => Event(Id(j), j + 1, true, ""))
  }

  /** The first of them is edited while a fresh database's first poll has fetched one page. */
  function FirstEdit(finish: int): Setting {
    Setting(FRESH, Hundred(), 0, Event(Id(0), PAGE + 2, true, "edited"), 0, Clock(WEEK + 1, finish), 1)
  }

  lemma HundredIsStable()
    ensures Stable(Hundred()) && FirstVisible(Hundred(), Some(1)) == 0
  {
    hide FirstVisible;
    forall i, j | 0 <= i < j < |Hundred()| ensures Hundred()[i].id != Hundred()[j].id {
      assert |Hundred()[i].id| == i && |Hundred()[j].id| == j;
    }
    FirstIsFirst(Hundred(), Some(1), 0);
  }

  /** Such an edit is possible: the last event is skipped, and no later poll handles it. */
  lemma EditLossIsReachable(s: Setting, db: Db, after: seq<Event>, finish: int, clocks: seq<Clock>)
    requires finish > PAGE + 1 && s == FirstEdit(finish) && db == s.Result() && after == s.After()
    requires forall j :: 0 <= j < |clocks| ==> clocks[j].finish >= finish
    ensures s.Valid() && LosesBoundary(s)
    ensures !NothingLost(db, after, 1) && !Settled(Polls(db, after, clocks), s.list[PAGE])
  {
    FirstEditIsValid(finish);
    NothingSettled(s.list[PAGE]);
    hide Stable, Settled, FirstVisible, Polls, Edited, CursorAfter, NothingLost, Setting.Valid, Setting.V,
      Setting.Boundary;
    EditBetweenFetchesIff(s);
    LostStaysLost(s, db, after, PAGE, clocks);
  }

  lemma FirstEditIsValid(finish: int)
    ensures FirstEdit(finish).Valid() && Shifts(FirstEdit(finish)) && FirstEdit(finish).Boundary() == PAGE
    ensures CursorAfter(FirstEdit(finish)) == finish
  {
    HundredIsStable();
    NothingSettled(FirstEdit(finish).e);
    hide Stable, Settled, FirstVisible;
  }
}
