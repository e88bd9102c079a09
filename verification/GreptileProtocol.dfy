/** Sessions that share a pull request, in any interleaving of their steps: at most one trigger is ever sent. */
module GreptileProtocol {
  import opened Common
  import opened GreptileModel
  import opened GreptileHistory
  import opened GreptileDecision
  import opened GreptileTheorems

  /** A posted marker. What a later readback shows of its editors, head and text is left open. */
  datatype Posted = Posted(id: int, kind: CommentKind, author: int, createdAt: nat, session: int)

  /** A session's right to send, from one observation of one reservation. */
  datatype Right = Right(session: int, observation: int, reservation: int)

  /**
   `closed` holds the reservations on which no session will act again: only for these may a never-submitted proof ever
   exist. `granted` records every trigger result, `attempted` the rights journaled as attempted, `sent` the triggers.
   */
  datatype World = World(posts: seq<Posted>, journal: seq<JournalEntry>, closed: set<int>,
                         granted: set<Right>, attempted: set<Right>, sent: seq<Right>)

  datatype Step =
    | Post(p: Posted)
    | Journal(e: JournalEntry)
    | Decide(o: Observation, h: History, reservation: int, seenPosts: nat, seenJournal: nat)
    | Attempt(right: Right, e: JournalEntry)
    | Send(right: Right, callComment: Option<Posted>)
    | Close(reservation: int)

  const INITIAL := World([], [], {}, {}, {}, [])

  predicate Follows(posts: seq<Posted>, p: Posted) {
    forall q | q in posts :: q.id != p.id && (q.createdAt < p.createdAt || (q.createdAt == p.createdAt && q.id < p.id))
  }

  predicate Reads(p: Posted, c: Comment) {
    c.id == p.id && c.kind == p.kind && c.author == p.author && c.createdAt == p.createdAt
  }

  predicate PostedBy(posts: seq<Posted>, reservation: int, session: int) {
    exists p | p in posts :: p.id == reservation && p.session == session
  }

  /** The comment list is everything posted up to some moment, in any order. */
  predicate Snapshot(posts: seq<Posted>, comments: seq<Comment>) {
    AllShown(posts, comments) && forall c | c in comments :: exists p | p in posts :: Reads(p, c)
  }

  predicate AllShown(posts: seq<Posted>, comments: seq<Comment>) {
    forall p | p in posts :: exists c | c in comments :: Reads(p, c)
  }

  /** The journal shows real entries, and all of this session's own up to some moment. */
  predicate OwnJournal(entries: seq<JournalEntry>, session: int, shown: seq<JournalEntry>) {
    && (forall e | e in shown :: e in entries)
    && (forall e | e in entries && e.session == session :: e in shown)
  }

  /** Evidence about the world as it was when the observation was collected; every other family is arbitrary. */
  ghost predicate Observes(w: World, account: int, o: Observation, seenPosts: nat, seenJournal: nat) {
    && o.account == account && seenPosts <= |w.posts| && seenJournal <= |w.journal|
    && (o.comments.Known? ==> Snapshot(w.posts[..seenPosts], o.comments.value))
    && (o.journal.Known? ==> OwnJournal(w.journal[..seenJournal], o.session, o.journal.value))
    && (forall s | s in Items(o.submissions) && ProvenUnsent(s) && s.reservation.Some? :: s.reservation.value in w.closed)
  }

  ghost predicate Enabled(w: World, account: int, step: Step) {
    match step
    case Post(p) => Follows(w.posts, p)
    case Journal(e) => PostedBy(w.posts, e.reservation, e.session)
    case Decide(o, h, r, n, k) =>
      && Observes(w, account, o, n, k) && HistoryOf(o, h) && DecideWith(o, h).SendTrigger?
      && DecideWith(o, h).reservation == r && r !in w.closed
    case Attempt(right, e) =>
      && right in w.granted && right !in w.attempted && right.reservation !in w.closed
      && e.reservation == right.reservation && e.session == right.session && e.observation == right.observation
      && e.phase == Attempted
    case Send(right, call) =>
      && right in w.attempted && right !in w.sent && right.reservation !in w.closed
      && (call.Some? ==> call.value.kind == Trigger && call.value.author == account && Follows(w.posts, call.value))
    case Close(r) => forall x | x in w.sent :: x.reservation != r
  }

  function Apply(w: World, step: Step): World {
    match step
    case Post(p) => w.(posts := w.posts + [p])
    case Journal(e) => w.(journal := w.journal + [e])
    case Decide(o, _, r, _, _) => w.(granted := w.granted + {Right(o.session, o.id, r)})
    case Attempt(right, e) =>
      w.(attempted := w.attempted + {right}, journal := w.journal + [e])
    case Send(right, call) =>
      w.(sent := w.sent + [right], posts := if call.Some? then w.posts + [call.value] else w.posts)
    case Close(r) => w.(closed := w.closed + {r})
  }

  // ---- the invariant ----

  predicate Before(p: Posted, q: Posted) {
    p.id != q.id && (p.createdAt < q.createdAt || (p.createdAt == q.createdAt && p.id < q.id))
  }

  predicate Ordered(posts: seq<Posted>) {
    forall i, j | 0 <= i < j < |posts| :: Before(posts[i], posts[j])
  }

  predicate JournalsOwn(posts: seq<Posted>, journal: seq<JournalEntry>) {
    forall e | e in journal :: PostedBy(posts, e.reservation, e.session)
  }

  /** Every earlier marker of the account is closed. */
  predicate WinsAt(posts: seq<Posted>, account: int, closed: set<int>, reservation: int, i: nat) {
    && i < |posts| && posts[i].id == reservation && posts[i].author == account
    && forall j | 0 <= j < i && posts[j].author == account :: posts[j].id in closed
  }

  predicate Wins(posts: seq<Posted>, account: int, closed: set<int>, reservation: int) {
    exists i: nat | i < |posts| :: WinsAt(posts, account, closed, reservation, i)
  }

  predicate FirstAt(journal: seq<JournalEntry>, g: Right, k: nat) {
    && k < |journal| && journal[k].reservation == g.reservation
    && journal[k].session == g.session && journal[k].observation == g.observation
    && forall l | 0 <= l < k :: journal[l].reservation != g.reservation
  }

  /** The first journal entry of the reservation belongs to this session and observation. */
  predicate JournaledFirst(journal: seq<JournalEntry>, g: Right) {
    exists k: nat | k < |journal| :: FirstAt(journal, g, k)
  }

  predicate Invariant(w: World, account: int) {
    && Ordered(w.posts) && JournalsOwn(w.posts, w.journal)
    && (forall g | g in w.granted :: Wins(w.posts, account, w.closed, g.reservation) && JournaledFirst(w.journal, g))
    && w.attempted <= w.granted
    && (forall g | g in w.sent :: g in w.attempted && g.reservation !in w.closed)
    && (forall i, j | 0 <= i < j < |w.sent| :: w.sent[i] != w.sent[j])
  }

  /** Two rights whose reservations are both still open are the same right. */
  lemma OpenRightsAgree(w: World, account: int, a: Right, b: Right)
    requires Invariant(w, account) && a in w.granted && b in w.granted
    requires a.reservation !in w.closed && b.reservation !in w.closed
    ensures a == b
  {
    var i: nat :| i < |w.posts| && WinsAt(w.posts, account, w.closed, a.reservation, i);
    var j: nat :| j < |w.posts| && WinsAt(w.posts, account, w.closed, b.reservation, j);
    assert i == j;
    var k: nat :| k < |w.journal| && FirstAt(w.journal, a, k);
    var l: nat :| l < |w.journal| && FirstAt(w.journal, b, l);
    assert k == l;
  }

  lemma WinsGrows(posts: seq<Posted>, more: seq<Posted>, account: int, closed: set<int>, wider: set<int>, r: int)
    requires Wins(posts, account, closed, r) && closed <= wider
    ensures Wins(posts + more, account, wider, r)
  {
    var i: nat :| i < |posts| && WinsAt(posts, account, closed, r, i);
    assert WinsAt(posts + more, account, wider, r, i);
  }

  lemma FirstGrows(journal: seq<JournalEntry>, e: JournalEntry, g: Right)
    requires JournaledFirst(journal, g)
    ensures JournaledFirst(journal + [e], g)
  {
    var k: nat :| k < |journal| && FirstAt(journal, g, k);
    assert FirstAt(journal + [e], g, k);
  }

  /** A marker that precedes the winner has been released by a proof. */
  lemma EarlierReleased(f: Facts, m: Comment, c: Comment)
    requires IsWinner(f, m) && c in f.comments && c.author == f.account && !MarkerBefore(m, c)
    ensures exists s | s in f.submissions :: ProvenUnsent(s) && s.reservation == Some(c.id)
  {
    assert c !in LiveMarkers(f);
    assert Released(f, c.id);
  }

  /** The least account marker of a snapshot, up to closed ones, wins among all posts. */
  lemma SnapshotWins(posts: seq<Posted>, n: nat, account: int, closed: set<int>, comments: seq<Comment>,
          m: Comment, p: Posted)
    requires Ordered(posts) && n <= |posts| && AllShown(posts[..n], comments)
    requires p in posts[..n] && Reads(p, m) && m.author == account
    requires forall c | c in comments && c.author == account && !MarkerBefore(m, c) :: c.id in closed
    ensures Wins(posts, account, closed, m.id)
  {
    var seen := posts[..n];
    var i :| 0 <= i < |seen| && seen[i] == p;
    forall j | 0 <= j < i && posts[j].author == account ensures posts[j].id in closed {
      assert seen[j] == posts[j] && seen[j] in seen;
      assert Before(posts[j], posts[i]);
      var c :| c in comments && Reads(posts[j], c);
    }
    assert WinsAt(posts, account, closed, m.id, i);
  }

  /** A granted right wins: every earlier marker in its snapshot was released, hence closed. */
  lemma GrantWins(w: World, account: int, o: Observation, m: Comment, n: nat, k: nat)
    requires Invariant(w, account) && Observes(w, account, o, n, k) && HistoriesKnown(o)
    requires IsWinner(FactsOf(o), m)
    ensures Wins(w.posts, account, w.closed, m.id)
  {
    var f := FactsOf(o);
    assert m in LiveMarkers(f);
    forall c | c in o.comments.value && c.author == account && !MarkerBefore(m, c) ensures c.id in w.closed {
      EarlierReleased(f, m, c);
      var s :| s in f.submissions && ProvenUnsent(s) && s.reservation == Some(c.id);
      assert s in Items(o.submissions);
    }
    var p :| p in w.posts[..n] && Reads(p, m);
    SnapshotWins(w.posts, n, account, w.closed, o.comments.value, m, p);
  }

  lemma SamePoster(posts: seq<Posted>, r: int, s: int, t: int)
    requires Ordered(posts) && PostedBy(posts, r, s) && PostedBy(posts, r, t)
    ensures s == t
  {
    var p :| p in posts && p.id == r && p.session == s;
    var q :| q in posts && q.id == r && q.session == t;
    var i :| 0 <= i < |posts| && posts[i] == p;
    var j :| 0 <= j < |posts| && posts[j] == q;
    assert i == j;
  }

  lemma {:induction false} FirstEntry(journal: seq<JournalEntry>, r: int, k: nat) returns (l: nat)
    requires k < |journal| && journal[k].reservation == r
    ensures l <= k && journal[l].reservation == r && forall x | 0 <= x < l :: journal[x].reservation != r
  {
    l := k;
    if x: nat :| x < k && journal[x].reservation == r {
      l := FirstEntry(journal, r, x);
    }
  }

  lemma Position(journal: seq<JournalEntry>, k: nat, e: JournalEntry) returns (x: nat)
    requires k <= |journal| && e in journal[..k]
    ensures x < k && journal[x] == e
  {
    x :| x < k && journal[..k][x] == e;
  }

  /** A granted right was journaled first: no other session or observation had an entry for its reservation. */
  lemma GrantFirst(w: World, account: int, o: Observation, m: Comment, n: nat, k: nat)
    requires Invariant(w, account) && Observes(w, account, o, n, k) && HistoriesKnown(o)
    requires IsWinner(FactsOf(o), m) && OwnsFresh(FactsOf(o), m)
    ensures JournaledFirst(w.journal, Right(o.session, o.id, m.id))
  {
    var f := FactsOf(o);
    var e :| e in f.journal && IsLatest(f, e) && e.reservation == m.id;
    assert e in Mine(f) && e in o.journal.value && e in w.journal[..k];
    var x := Position(w.journal, k, e);
    var l := FirstEntry(w.journal, m.id, x);
    FirstIsOwn(w, account, o, m, n, k, e, l);
    assert FirstAt(w.journal, Right(o.session, o.id, m.id), l);
  }

  /** The first entry of a reservation was made by the session that journaled it later as well. */
  lemma FirstIsOwn(w: World, account: int, o: Observation, m: Comment, n: nat, k: nat, e: JournalEntry, l: nat)
    requires Invariant(w, account) && Observes(w, account, o, n, k) && OwnsFresh(FactsOf(o), m)
    requires e in o.journal.value && e in w.journal && e.session == o.session && e.reservation == m.id
    requires l < k && l < |w.journal| && w.journal[l].reservation == m.id
    ensures w.journal[l].session == o.session && w.journal[l].observation == o.id
  {
    var first := w.journal[l];
    assert w.journal[..k][l] == first && first in w.journal;
    SamePoster(w.posts, m.id, first.session, e.session);
    assert first in o.journal.value && first in FactsOf(o).journal;
  }

  lemma PostedByGrows(posts: seq<Posted>, p: Posted, journal: seq<JournalEntry>)
    requires JournalsOwn(posts, journal)
    ensures JournalsOwn(posts + [p], journal)
  {
    forall e | e in journal ensures PostedBy(posts + [p], e.reservation, e.session) {
      var q :| q in posts && q.id == e.reservation && q.session == e.session;
      assert q in posts + [p];
    }
  }

  lemma PostKeeps(w: World, account: int, p: Posted, w2: World)
    requires Invariant(w, account) && Follows(w.posts, p) && w2 == w.(posts := w.posts + [p])
    ensures Invariant(w2, account)
  {
    PostedByGrows(w.posts, p, w.journal);
    forall g | g in w.granted ensures Wins(w2.posts, account, w.closed, g.reservation) {
      WinsGrows(w.posts, [p], account, w.closed, w.closed, g.reservation);
    }
  }

  lemma JournalKeeps(w: World, account: int, e: JournalEntry, w2: World)
    requires Invariant(w, account) && PostedBy(w.posts, e.reservation, e.session)
            && w2 == w.(journal := w.journal + [e])
    ensures Invariant(w2, account)
  {
    forall g | g in w.granted ensures JournaledFirst(w2.journal, g) {
      FirstGrows(w.journal, e, g);
    }
  }

  /** The owner of a granted right posted its reservation. */
  lemma GrantPosted(w: World, account: int, g: Right)
    requires Invariant(w, account) && g in w.granted
    ensures PostedBy(w.posts, g.reservation, g.session)
  {
    var k: nat :| k < |w.journal| && FirstAt(w.journal, g, k);
    assert w.journal[k] in w.journal;
  }

  lemma DecideKeeps(w: World, account: int, o: Observation, m: Comment, n: nat, k: nat)
    requires Invariant(w, account) && Observes(w, account, o, n, k) && HistoriesKnown(o)
    requires IsWinner(FactsOf(o), m) && OwnsFresh(FactsOf(o), m)
    ensures Invariant(w.(granted := w.granted + {Right(o.session, o.id, m.id)}), account)
  {
    GrantWins(w, account, o, m, n, k);
    GrantFirst(w, account, o, m, n, k);
  }

  lemma AttemptKeeps(w: World, account: int, right: Right, e: JournalEntry)
    requires Invariant(w, account) && right in w.granted && e.reservation == right.reservation
            && e.session == right.session
    ensures Invariant(w.(attempted := w.attempted + {right}, journal := w.journal + [e]), account)
  {
    GrantPosted(w, account, right);
    JournalKeeps(w, account, e, w.(journal := w.journal + [e]));
  }

  lemma SendKeeps(w: World, account: int, right: Right, call: Option<Posted>)
    requires Invariant(w, account) && right in w.attempted && right !in w.sent && right.reservation !in w.closed
    requires call.Some? ==> Follows(w.posts, call.value)
    ensures Invariant(w.(sent := w.sent + [right], posts := if call.Some? then w.posts + [call.value] else w.posts),
            account)
  {
    if call.Some? {
      PostKeeps(w, account, call.value, w.(posts := w.posts + [call.value]));
    }
  }

  lemma CloseKeeps(w: World, account: int, r: int)
    requires Invariant(w, account) && forall x | x in w.sent :: x.reservation != r
    ensures Invariant(w.(closed := w.closed + {r}), account)
  {
    forall g | g in w.granted ensures Wins(w.posts, account, w.closed + {r}, g.reservation) {
      WinsGrows(w.posts, [], account, w.closed, w.closed + {r}, g.reservation);
      assert w.posts + [] == w.posts;
    }
  }

  /** Every step of every session keeps the invariant. */
  lemma StepKeepsInvariant(w: World, account: int, step: Step)
    requires Invariant(w, account) && Enabled(w, account, step)
    ensures Invariant(Apply(w, step), account)
  {
    match step
    case Post(p) => PostKeeps(w, account, p, Apply(w, step));
    case Journal(e) => JournalKeeps(w, account, e, Apply(w, step));
    case Decide(o, h, r, n, k) =>
      var m := TriggerMarker(o, h);
      DecideKeeps(w, account, o, m, n, k);
    case Attempt(right, e) => AttemptKeeps(w, account, right, e);
    case Send(right, call) => SendKeeps(w, account, right, call);
    case Close(r) => CloseKeeps(w, account, r);
  }

  // ---- every run ----

  function Final(steps: seq<Step>): World {
    if steps == [] then INITIAL else Apply(Final(steps[..|steps| - 1]), steps[|steps| - 1])
  }

  ghost predicate ValidRun(account: int, steps: seq<Step>) {
    steps == [] || (ValidRun(account, steps[..|steps| - 1])
            && Enabled(Final(steps[..|steps| - 1]), account, steps[|steps| - 1]))
  }

  lemma {:induction false} RunKeepsInvariant(account: int, steps: seq<Step>)
    requires ValidRun(account, steps)
    ensures Invariant(Final(steps), account)
  {
    if steps != [] {
      RunKeepsInvariant(account, steps[..|steps| - 1]);
      StepKeepsInvariant(Final(steps[..|steps| - 1]), account, steps[|steps| - 1]);
    }
  }

  /** Whatever crashes, races and clock readings a run holds, the pull request gets at most one trigger. */
  lemma AtMostOneTrigger(account: int, steps: seq<Step>)
    requires ValidRun(account, steps)
    ensures |Final(steps).sent| <= 1
  {
    RunKeepsInvariant(account, steps);
    var w := Final(steps);
    if |w.sent| > 1 {
      assert w.sent[0] in w.sent && w.sent[1] in w.sent;
      OpenRightsAgree(w, account, w.sent[0], w.sent[1]);
      assert false;
    }
  }
}
