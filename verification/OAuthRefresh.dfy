/** The single-flight OAuth refresh (section 6 of RFC 6749): take the channel's
    lock, read storage again, present the refresh token upstream, and rotate the
    stored credential by compare-and-swap. Any number of tasks of the feedback,
    manual and WHAM-retry entry points run interleaved with operator edits,
    dropped requests and the clock. */
module OAuthRefresh {
  import opened Prelude
  import opened OAuthLocks

  /** A refresh token, tagged with the channel it was issued for. */
  datatype Token = Token(channel: Channel, serial: nat)

  datatype Kind = Codex | Imported | OtherKind

  /** The key text: a Codex credential, or anything else by its content. */
  datatype Key =
    | CodexKey(access: Option<nat>, refresh: Option<Token>, stamp: Option<int>, rest: nat)
    | PlainKey(text: nat)

  /** A channel; `oauth`, `refresh` and `stamp` are the setting fields of an
      imported credential. */
  datatype Record = Record(kind: Kind, key: Key, oauth: bool, refresh: Option<Token>, stamp: Option<int>)

  const WINDOW: int := 30

  function Saturated(n: int): int {
    if n > I64_MAX then I64_MAX else if n < I64_MIN then I64_MIN else n
  }

  predicate Recent(stamp: int, now: int) {
    Saturated(now - WINDOW) <= stamp <= Saturated(now + WINDOW)
  }

  /** The refresh token a refresh of this channel would present. */
  function Credential(r: Record): Option<Token> {
    match r.kind
    case Codex => if r.key.CodexKey? then r.key.refresh else None
    case Imported => if r.oauth then r.refresh else None
    case OtherKind => None
  }

  function LastRefresh(r: Record): Option<int> {
    match r.kind
    case Codex => if r.key.CodexKey? then r.key.stamp else None
    case Imported => r.stamp
    case OtherKind => None
  }

  /** Feedback refreshes when stale; the single-flight entry point (manual and
      WHAM retry) refreshes while the access token is the one observed. */
  datatype Mode = Feedback | SingleFlight(observed: Option<nat>)

  predicate Proceeds(mode: Mode, r: Record, now: int) {
    Credential(r).Some? &&
    match mode
    case Feedback => !(LastRefresh(r).Some? && Recent(LastRefresh(r).value, now))
    case SingleFlight(observed) =>
      r.kind == Codex && !(observed.Some? && r.key.access.Some? && r.key.access != observed)
  }

  /** What upstream granted. */
  datatype Grant = Grant(access: nat, refresh: Token)

  /** After the grant the clock is read, and only then is storage asked; the store
      may answer at any later time. */
  datatype Phase =
    | Queued
    | Inside
    | Ready(seen: Record)
    | Granted(seen: Record, grant: Grant, clock: Option<int>)
    | Finished
    | Released

  datatype Work = Work(mode: Mode, phase: Phase)

  /** One presentation to upstream: whether that token had been rotated away
      before, whether it is rotated away now, and how long after the stamp of the
      last committed refresh it happened. */
  datatype Presented = Presented(channel: Channel, token: Token, wasSpent: bool, rotated: bool,
                                 feedback: bool, gap: Option<int>)

  /** `spent` holds the tokens upstream has rotated away; `committed` the stamp of
      each channel's last committed refresh, until an operator edits that stamp. */
  datatype State = State(locks: Locks, work: map<Task, Work>, store: map<Channel, Record>,
                         spent: set<Token>, serial: nat, now: int,
                         committed: map<Channel, int>, log: seq<Presented>)

  datatype Event =
    | Begin(task: Task, channel: Channel, mode: Mode)
    | Take(task: Task)
    | Read(task: Task)
    | Present(task: Task, accepted: bool, rotates: bool, access: nat)
    | Stamp(task: Task)
    | Commit(task: Task, stored: bool)
    | Unlock(task: Task)
    | Forget(task: Task)
    | Cancel(task: Task)
    | Edit(channel: Channel, record: Record)
    | Tick(seconds: nat)

  // ------------------------------------------------------------- transitions

  predicate Holds(p: Phase) {
    p.Inside? || p.Ready? || p.Granted? || p.Finished?
  }

  predicate At(s: State, t: Task) {
    t in s.work && t in s.locks.seats
  }

  function ChannelOf(s: State, t: Task): Channel
    requires At(s, t)
  {
    s.locks.seats[t].channel
  }

  function To(s: State, t: Task, p: Phase): State
    requires t in s.work
  {
    s.(work := s.work[t := s.work[t].(phase := p)])
  }

  /** Storage is read again once the lock is held; a missing channel ends it. */
  function ReadStep(s: State, t: Task): State
    requires At(s, t)
  {
    var c := ChannelOf(s, t);
    if c in s.store && Proceeds(s.work[t].mode, s.store[c], s.now) then To(s, t, Ready(s.store[c]))
    else To(s, t, Finished)
  }

  /** Upstream refuses a token it has rotated away, and may refuse any other; on
      success it returns an access token and, if it rotates, a new refresh token
      in place of the one presented. */
  function PresentStep(s: State, t: Task, accepted: bool, rotates: bool, access: nat): State
    requires At(s, t) && s.work[t].phase.Ready? && Credential(s.work[t].phase.seen).Some?
  {
    var seen := s.work[t].phase.seen;
    var token, c := Credential(seen).value, ChannelOf(s, t);
    var entry := Presented(c, token, token in s.spent, accepted && token !in s.spent && rotates,
                           s.work[t].mode.Feedback?,
                           if c in s.committed then Some(s.now - s.committed[c]) else None);
    var logged := s.(log := s.log + [entry]);
    if !accepted || token in s.spent then To(logged, t, Finished)
    else if rotates then
      To(logged.(spent := s.spent + {token}, serial := s.serial + 1), t,
         Granted(seen, Grant(access, Token(c, s.serial)), None))
    else To(logged, t, Granted(seen, Grant(access, token), None))
  }

  function StampStep(s: State, t: Task): State
    requires At(s, t) && s.work[t].phase.Granted?
  {
    To(s, t, s.work[t].phase.(clock := Some(s.now)))
  }

  /** The record after the swap. An imported credential is changed by the sparse
      patch: only fields that differ from the ones read are written. */
  function Rotated(cur: Record, seen: Record, g: Grant, stamp: int): Record {
    if seen.kind == Codex && seen.key.CodexKey? then
      cur.(key := CodexKey(Some(g.access), Some(g.refresh), Some(stamp), seen.key.rest))
    else cur.(key := PlainKey(g.access),
              refresh := if Some(g.refresh) == seen.refresh then cur.refresh else Some(g.refresh),
              stamp := if Some(stamp) == seen.stamp then cur.stamp else Some(stamp))
  }

  /** The rotation is stored when storage answers and the key is still the one
      read under the lock. */
  predicate Swaps(s: State, t: Task, stored: bool)
    requires At(s, t) && s.work[t].phase.Granted?
  {
    stored && ChannelOf(s, t) in s.store && s.store[ChannelOf(s, t)].key == s.work[t].phase.seen.key
  }

  predicate Stamped(s: State, t: Task) {
    At(s, t) && s.work[t].phase.Granted? && s.work[t].phase.clock.Some?
  }

  function RotatedBy(s: State, t: Task): Record
    requires Stamped(s, t) && ChannelOf(s, t) in s.store
  {
    var p := s.work[t].phase;
    Rotated(s.store[ChannelOf(s, t)], p.seen, p.grant, p.clock.value)
  }

  function CommitStep(s: State, t: Task, stored: bool): State
    requires Stamped(s, t)
  {
    var c, stamp := ChannelOf(s, t), s.work[t].phase.clock.value;
    if !Swaps(s, t, stored) then To(s, t, Finished)
    else
      var next := To(s, t, Finished).(store := s.store[c := RotatedBy(s, t)]);
      if LastRefresh(RotatedBy(s, t)) == Some(stamp) then next.(committed := s.committed[c := stamp])
      else next.(committed := s.committed - {c})
  }

  /** An operator may write any record whose credential is absent, unchanged, or
      newly issued for this channel. */
  predicate EditAllowed(s: State, c: Channel, r: Record) {
    match Credential(r)
    case None => true
    case Some(k) => k.channel == c && (k.serial >= s.serial || (c in s.store && Credential(s.store[c]) == Some(k)))
  }

  predicate KeepsStamp(s: State, c: Channel, r: Record) {
    c in s.store && LastRefresh(r) == LastRefresh(s.store[c])
  }

  function EditStep(s: State, c: Channel, r: Record): State {
    s.(store := s.store[c := r], committed := if KeepsStamp(s, c, r) then s.committed else s.committed - {c},
       serial := if Credential(r).Some? && Credential(r).value.serial >= s.serial
                 then Credential(r).value.serial + 1 else s.serial)
  }

  predicate Enabled(s: State, e: Event) {
    match e
    case Begin(t, _, _) => t !in s.work && t !in s.locks.seats
    case Take(t) => At(s, t) && s.work[t].phase.Queued? && OAuthLocks.Enabled(s.locks, Acquire(t))
    case Read(t) => At(s, t) && s.work[t].phase.Inside?
    case Present(t, _, _, _) => At(s, t) && s.work[t].phase.Ready? && Credential(s.work[t].phase.seen).Some?
    case Stamp(t) => At(s, t) && s.work[t].phase.Granted? && s.work[t].phase.clock.None?
    case Commit(t, _) => Stamped(s, t)
    case Unlock(t) => At(s, t) && s.work[t].phase.Finished? && s.locks.seats[t].holding
    case Forget(t) => At(s, t) && s.work[t].phase.Released? && !s.locks.seats[t].holding
    case Cancel(t) => At(s, t)
    case Edit(c, r) => EditAllowed(s, c, r)
    case Tick(d) => s.now + d <= I64_MAX
  }

  function LocksAfterCancel(l: Locks, t: Task): Locks
    requires t in l.seats
  {
    var released := if l.seats[t].holding then OAuthLocks.Step(l, Release(t)) else l;
    OAuthLocks.Step(released, Drop(t))
  }

  function Step(s: State, e: Event): State
    requires Enabled(s, e)
  {
    match e
    case Begin(t, c, mode) =>
      s.(locks := OAuthLocks.Step(s.locks, Enter(t, c)), work := s.work[t := Work(mode, Queued)])
    case Take(t) => To(s, t, Inside).(locks := OAuthLocks.Step(s.locks, Acquire(t)))
    case Read(t) => ReadStep(s, t)
    case Present(t, accepted, rotates, access) => PresentStep(s, t, accepted, rotates, access)
    case Stamp(t) => StampStep(s, t)
    case Commit(t, stored) => CommitStep(s, t, stored)
    case Unlock(t) => To(s, t, Released).(locks := OAuthLocks.Step(s.locks, Release(t)))
    case Forget(t) => s.(locks := OAuthLocks.Step(s.locks, Drop(t)), work := s.work - {t})
    case Cancel(t) => s.(locks := LocksAfterCancel(s.locks, t), work := s.work - {t})
    case Edit(c, r) => EditStep(s, c, r)
    case Tick(d) => s.(now := s.now + d)
  }

  function Start(now: int): State {
    State(OAuthLocks.Init, map[], map[], {}, 0, now, map[], [])
  }

  function Run(now: int, events: seq<Event>): State {
    if events == [] then Start(now)
    else
      var s, e := Run(now, events[..|events| - 1]), events[|events| - 1];
      if Enabled(s, e) then Step(s, e) else s
  }

  // ---------------------------------------------------------------- invariants

  /** Each task at work has a seat, and holds the guard in the phases inside. */
  ghost predicate Seated(s: State) {
    && s.work.Keys == s.locks.seats.Keys
    && (forall t | t in s.work :: s.locks.seats[t].holding <==> Holds(s.work[t].phase))
  }

  ghost predicate Linked(s: State) {
    OAuthLocks.Inv(s.locks) && Seated(s)
  }

  lemma LockStepSeated(s: State, e: Event)
    requires Seated(s) && Enabled(s, e) && (e.Begin? || e.Take? || e.Unlock? || e.Forget?)
    ensures Seated(Step(s, e))
  {
    match e
    case Begin(_, _, _) =>
    case Take(_) =>
    case Unlock(_) =>
    case Forget(_) =>
  }

  ghost predicate Issued(k: Option<Token>, c: Channel, serial: nat) {
    k.Some? ==> k.value.channel == c && k.value.serial < serial
  }

  /** Every token in play was issued, for the channel it is used on. */
  ghost predicate TokensIssued(s: State) {
    && (forall c | c in s.store :: Issued(Credential(s.store[c]), c, s.serial))
    && (forall k | k in s.spent :: k.serial < s.serial)
    && (forall t | At(s, t) && s.work[t].phase.Ready? ::
          Credential(s.work[t].phase.seen).Some? && Issued(Credential(s.work[t].phase.seen), ChannelOf(s, t), s.serial))
    && (forall t | At(s, t) && s.work[t].phase.Granted? ::
          && Credential(s.work[t].phase.seen).Some?
          && Issued(Credential(s.work[t].phase.seen), ChannelOf(s, t), s.serial)
          && Issued(Some(s.work[t].phase.grant.refresh), ChannelOf(s, t), s.serial))
  }

  /** A task of channel `c` that has been granted a token but has not stored
      it, having presented `k`. */
  ghost predicate GrantedFor(s: State, t: Task, c: Channel, k: Token) {
    At(s, t) && ChannelOf(s, t) == c && s.work[t].phase.Granted? && Credential(s.work[t].phase.seen) == Some(k)
  }

  ghost predicate StoreUnspent(s: State, c: Channel) {
    c in s.store && Credential(s.store[c]).Some? && Credential(s.store[c]).value in s.spent ==>
      exists t :: GrantedFor(s, t, c, Credential(s.store[c]).value)
  }

  /** On channel `c`: what a task is about to present, and what a grant will
      store, is not spent; a stored token is spent only while its replacement is
      on the way to storage. */
  ghost predicate Unspent(s: State, c: Channel) {
    && (forall t | At(s, t) && ChannelOf(s, t) == c && s.work[t].phase.Ready? ::
          Credential(s.work[t].phase.seen).Some? && Credential(s.work[t].phase.seen).value !in s.spent)
    && (forall t | At(s, t) && ChannelOf(s, t) == c && s.work[t].phase.Granted? ::
          s.work[t].phase.grant.refresh !in s.spent)
    && StoreUnspent(s, c)
    && (forall i :: 0 <= i < |s.log| && s.log[i].channel == c ==> !s.log[i].wasSpent)
  }

  /** What storage will hold for channel `c` after the event, when the event ends
      the granted refresh of task `t`. */
  function StoredAfter(s: State, e: Event, t: Task, c: Channel): Option<Token>
    requires Enabled(s, e) && c in s.store
  {
    if e.Commit? && e.task == t && ChannelOf(s, t) == c && Swaps(s, t, e.stored) then Credential(RotatedBy(s, t))
    else Credential(s.store[c])
  }

  /** The event loses a rotation of channel `c`: it ends a refresh whose presented
      token `k` upstream rotated away (the request is dropped, storage fails, or
      the key was edited), and storage still has `k` as the credential. */
  ghost predicate LosesToken(s: State, e: Event, c: Channel, k: Token) {
    && Enabled(s, e) && (e.Cancel? || e.Commit?) && GrantedFor(s, e.task, c, k)
    && k in s.spent && c in s.store && StoredAfter(s, e, e.task, c) == Some(k)
  }

  ghost predicate Loses(s: State, e: Event, c: Channel) {
    exists k :: LosesToken(s, e, c, k)
  }

  ghost predicate NoneLost(now: int, events: seq<Event>, c: Channel) {
    forall n :: 0 <= n < |events| ==> !Loses(Run(now, events[..n]), events[n], c)
  }

  // ------------------------------------------------------------ lock linkage

  lemma CancelSeats(l: Locks, t: Task)
    requires t in l.seats
    ensures LocksAfterCancel(l, t).seats == l.seats - {t}
  {
  }

  lemma CancelKeepsLocks(l: Locks, t: Task)
    requires OAuthLocks.Inv(l) && t in l.seats
    ensures OAuthLocks.Inv(LocksAfterCancel(l, t))
    ensures LocksAfterCancel(l, t).seats == l.seats - {t}
  {
    if l.seats[t].holding { OAuthLocks.StepKeeps(l, Release(t)); }
    var released := if l.seats[t].holding then OAuthLocks.Step(l, Release(t)) else l;
    OAuthLocks.StepKeeps(released, Drop(t));
  }

  lemma BeginLinked(s: State, t: Task, c: Channel, mode: Mode)
    requires Linked(s) && Enabled(s, Begin(t, c, mode))
    ensures Linked(Step(s, Begin(t, c, mode)))
  {
    LockStepSeated(s, Begin(t, c, mode));
    OAuthLocks.StepKeeps(s.locks, Enter(t, c));
  }

  lemma TakeLinked(s: State, t: Task)
    requires Linked(s) && Enabled(s, Take(t))
    ensures Linked(Step(s, Take(t)))
  {
    LockStepSeated(s, Take(t));
    OAuthLocks.StepKeeps(s.locks, Acquire(t));
  }

  lemma UnlockLinked(s: State, t: Task)
    requires Linked(s) && Enabled(s, Unlock(t))
    ensures Linked(Step(s, Unlock(t)))
  {
    LockStepSeated(s, Unlock(t));
    OAuthLocks.StepKeeps(s.locks, Release(t));
  }

  lemma ForgetLinked(s: State, t: Task)
    requires Linked(s) && Enabled(s, Forget(t))
    ensures Linked(Step(s, Forget(t)))
  {
    LockStepSeated(s, Forget(t));
    OAuthLocks.StepKeeps(s.locks, Drop(t));
  }

  lemma CancelLinked(s: State, t: Task)
    requires Linked(s) && Enabled(s, Cancel(t))
    ensures Linked(Step(s, Cancel(t)))
  {
    CancelKeepsLocks(s.locks, t);
  }

  /** A task that stays inside keeps the linkage, whatever else changes. */
  lemma PhaseLinked(s: State, next: State, t: Task, p: Phase)
    requires Linked(s) && t in s.work && Holds(s.work[t].phase) && Holds(p)
    requires next.locks == s.locks && next.work == s.work[t := s.work[t].(phase := p)]
    ensures Linked(next)
  {
  }

  lemma ReadLinked(s: State, t: Task)
    requires Linked(s) && Enabled(s, Read(t))
    ensures Linked(ReadStep(s, t)) && ReadStep(s, t).locks == s.locks
  {
    PhaseLinked(s, ReadStep(s, t), t, ReadStep(s, t).work[t].phase);
  }

  lemma PresentLinked(s: State, t: Task, accepted: bool, rotates: bool, access: nat)
    requires Linked(s) && Enabled(s, Present(t, accepted, rotates, access))
    ensures Linked(PresentStep(s, t, accepted, rotates, access))
  {
    var next := PresentStep(s, t, accepted, rotates, access);
    PhaseLinked(s, next, t, next.work[t].phase);
  }

  lemma StampLinked(s: State, t: Task)
    requires Linked(s) && Enabled(s, Stamp(t))
    ensures Linked(StampStep(s, t)) && StampStep(s, t).locks == s.locks
  {
    PhaseLinked(s, StampStep(s, t), t, StampStep(s, t).work[t].phase);
  }

  lemma CommitLinked(s: State, t: Task, stored: bool)
    requires Linked(s) && Enabled(s, Commit(t, stored))
    ensures Linked(CommitStep(s, t, stored))
  {
    PhaseLinked(s, CommitStep(s, t, stored), t, Finished);
  }

  lemma StepKeepsLinked(s: State, e: Event)
    requires Linked(s) && Enabled(s, e)
    ensures Linked(Step(s, e))
  {
    match e
    case Begin(t, c, mode) => BeginLinked(s, t, c, mode);
    case Take(t) => TakeLinked(s, t);
    case Unlock(t) => UnlockLinked(s, t);
    case Forget(t) => ForgetLinked(s, t);
    case Cancel(t) => CancelLinked(s, t);
    case Read(t) => ReadLinked(s, t);
    case Present(t, accepted, rotates, access) => PresentLinked(s, t, accepted, rotates, access);
    case Stamp(t) => StampLinked(s, t);
    case Commit(t, stored) => CommitLinked(s, t, stored);
    case Edit(_, _) =>
    case Tick(_) =>
  }

  /** At most one task per channel is inside the refresh section. */
  ghost predicate Exclusive(s: State) {
    forall t, u | At(s, t) && At(s, u) && Holds(s.work[t].phase) && Holds(s.work[u].phase) ::
      ChannelOf(s, t) == ChannelOf(s, u) ==> t == u
  }

  lemma LinkedIsExclusive(s: State)
    requires Linked(s)
    ensures Exclusive(s)
  {
    forall t, u | At(s, t) && At(s, u) && Holds(s.work[t].phase) && Holds(s.work[u].phase)
                  && ChannelOf(s, t) == ChannelOf(s, u)
      ensures t == u
    {
      OAuthLocks.OneHolderPerChannel(s.locks, t, u);
    }
  }

  // ------------------------------------------------------------- token safety

  /** What a step must leave alone to be of no concern to the tokens. */
  ghost predicate Quiet(s: State, next: State, c: Channel) {
    && next.store == s.store && next.spent == s.spent && next.serial == s.serial && next.log == s.log
    && (forall t | At(next, t) && (next.work[t].phase.Ready? || next.work[t].phase.Granted?) ::
          At(s, t) && s.work[t] == next.work[t] && ChannelOf(s, t) == ChannelOf(next, t))
    && (forall t | At(s, t) && ChannelOf(s, t) == c && s.work[t].phase.Granted? ::
          At(next, t) && s.work[t] == next.work[t] && ChannelOf(s, t) == ChannelOf(next, t))
  }

  lemma QuietKeeps(s: State, next: State, c: Channel)
    requires TokensIssued(s) && Unspent(s, c) && Quiet(s, next, c)
    ensures TokensIssued(next) && Unspent(next, c)
  {
    if c in s.store && Credential(s.store[c]).Some? && Credential(s.store[c]).value in s.spent {
      var k := Credential(s.store[c]).value;
      var t :| GrantedFor(s, t, c, k);
      assert GrantedFor(next, t, c, k);
    }
  }

  /** `next` differs from `s` in task `t` alone. */
  ghost predicate OnlyTask(s: State, next: State, t: Task) {
    && (forall u | At(next, u) && u != t ::
          At(s, u) && s.work[u] == next.work[u] && ChannelOf(s, u) == ChannelOf(next, u))
    && (forall u | At(s, u) && u != t ::
          At(next, u) && s.work[u] == next.work[u] && ChannelOf(s, u) == ChannelOf(next, u))
  }

  lemma CancelElsewhere(s: State, t: Task)
    requires Enabled(s, Cancel(t))
    ensures OnlyTask(s, Step(s, Cancel(t)), t)
  {
    CancelSeats(s.locks, t);
  }

  lemma SeatsElsewhere(s: State, e: Event)
    requires Enabled(s, e) && (e.Begin? || e.Take? || e.Unlock? || e.Forget?)
    ensures OnlyTask(s, Step(s, e), e.task)
  {
  }

  lemma LockStepsQuiet(s: State, e: Event, c: Channel)
    requires Linked(s) && Enabled(s, e)
    requires e.Begin? || e.Take? || e.Unlock? || e.Forget?
    ensures Quiet(s, Step(s, e), c)
  {
    SeatsElsewhere(s, e);
  }

  lemma StampIsSafe(s: State, t: Task, c: Channel)
    requires TokensIssued(s) && Unspent(s, c) && Enabled(s, Stamp(t))
    ensures TokensIssued(StampStep(s, t)) && Unspent(StampStep(s, t), c)
  {
    if c in s.store && Credential(s.store[c]).Some? && Credential(s.store[c]).value in s.spent {
      var k := Credential(s.store[c]).value;
      var u :| GrantedFor(s, u, c, k);
      assert GrantedFor(StampStep(s, t), u, c, k);
    }
  }

  lemma CancelIssued(s: State, t: Task)
    requires TokensIssued(s) && Enabled(s, Cancel(t))
    ensures TokensIssued(Step(s, Cancel(t)))
  {
    CancelElsewhere(s, t);
    CancelSeats(s.locks, t);
  }

  lemma CancelIsSafe(s: State, t: Task, c: Channel)
    requires Unspent(s, c) && Enabled(s, Cancel(t)) && !Loses(s, Cancel(t), c)
    ensures Unspent(Step(s, Cancel(t)), c)
  {
    var next := Step(s, Cancel(t));
    CancelElsewhere(s, t);
    CancelSeats(s.locks, t);
    if c in s.store && Credential(s.store[c]).Some? && Credential(s.store[c]).value in s.spent {
      var k := Credential(s.store[c]).value;
      var u :| GrantedFor(s, u, c, k);
      if u == t {
        assert LosesToken(s, Cancel(t), c, k);
      } else {
        assert GrantedFor(next, u, c, k);
      }
    }
  }

  lemma ReadIssued(s: State, t: Task)
    requires TokensIssued(s) && Enabled(s, Read(t))
    ensures TokensIssued(ReadStep(s, t))
  {
  }

  lemma ReadIsSafe(s: State, t: Task, c: Channel)
    requires Exclusive(s) && Unspent(s, c) && Enabled(s, Read(t))
    ensures Unspent(ReadStep(s, t), c)
  {
    var next := ReadStep(s, t);
    if c in s.store && Credential(s.store[c]).Some? && Credential(s.store[c]).value in s.spent {
      var k := Credential(s.store[c]).value;
      var u :| GrantedFor(s, u, c, k);
      assert ChannelOf(s, t) != c;
      assert GrantedFor(next, u, c, k);
    }
  }

  lemma PresentIssued(s: State, t: Task, accepted: bool, rotates: bool, access: nat)
    requires TokensIssued(s) && Enabled(s, Present(t, accepted, rotates, access))
    ensures TokensIssued(PresentStep(s, t, accepted, rotates, access))
  {
  }

  lemma PresentStoreSafe(s: State, t: Task, accepted: bool, rotates: bool, access: nat, c: Channel)
    requires TokensIssued(s) && Unspent(s, c) && Enabled(s, Present(t, accepted, rotates, access))
    ensures StoreUnspent(PresentStep(s, t, accepted, rotates, access), c)
  {
    var next := PresentStep(s, t, accepted, rotates, access);
    if c in s.store && Credential(s.store[c]).Some? && Credential(s.store[c]).value in next.spent {
      var k := Credential(s.store[c]).value;
      if k in s.spent {
        var u :| GrantedFor(s, u, c, k);
        assert GrantedFor(next, u, c, k);
      } else {
        assert GrantedFor(next, t, c, k);
      }
    }
  }

  lemma PresentIsSafe(s: State, t: Task, accepted: bool, rotates: bool, access: nat, c: Channel)
    requires Exclusive(s) && TokensIssued(s) && Unspent(s, c) && Enabled(s, Present(t, accepted, rotates, access))
    ensures Unspent(PresentStep(s, t, accepted, rotates, access), c)
  {
    PresentStoreSafe(s, t, accepted, rotates, access, c);
    var next := PresentStep(s, t, accepted, rotates, access);
    forall u | At(s, u) && u != t && ChannelOf(s, u) == c && Holds(s.work[u].phase) ensures ChannelOf(s, t) != c {
    }
  }

  lemma CommitIssued(s: State, t: Task, stored: bool)
    requires TokensIssued(s) && Enabled(s, Commit(t, stored))
    ensures TokensIssued(CommitStep(s, t, stored))
  {
  }

  /** The swap stores the granted token, or leaves the credential as it was, or
      (when an edit changed the kind) stores none. */
  lemma RotatedCredential(cur: Record, seen: Record, g: Grant, stamp: int)
    requires Credential(seen).Some?
    ensures Credential(Rotated(cur, seen, g, stamp)) in {None, Some(g.refresh), Credential(cur)}
  {
  }

  lemma CommitElsewhere(s: State, t: Task, stored: bool, c: Channel)
    requires Unspent(s, c) && Enabled(s, Commit(t, stored)) && ChannelOf(s, t) != c
    ensures Unspent(CommitStep(s, t, stored), c)
  {
    if c in s.store && Credential(s.store[c]).Some? && Credential(s.store[c]).value in s.spent {
      var k := Credential(s.store[c]).value;
      var u :| GrantedFor(s, u, c, k);
      assert GrantedFor(CommitStep(s, t, stored), u, c, k);
    }
  }

  /** A commit that loses nothing leaves a token upstream still accepts. */
  lemma CommitStoresGrant(s: State, t: Task, stored: bool, c: Channel)
    requires Exclusive(s) && TokensIssued(s) && Unspent(s, c) && Enabled(s, Commit(t, stored))
    requires ChannelOf(s, t) == c && !Loses(s, Commit(t, stored), c) && c in s.store
    ensures var r := CommitStep(s, t, stored).store[c];
            Credential(r).Some? ==> Credential(r).value !in s.spent
  {
    var r, p := CommitStep(s, t, stored).store[c], s.work[t].phase;
    RotatedCredential(s.store[c], p.seen, p.grant, p.clock.value);
    if Credential(r).Some? && Credential(r).value in s.spent {
      var k := Credential(r).value;
      var u :| GrantedFor(s, u, c, k);
      assert u == t;
      assert LosesToken(s, Commit(t, stored), c, k);
    }
  }

  lemma CommitIsSafe(s: State, t: Task, stored: bool, c: Channel)
    requires Exclusive(s) && TokensIssued(s) && Unspent(s, c) && Enabled(s, Commit(t, stored))
    requires !Loses(s, Commit(t, stored), c)
    ensures Unspent(CommitStep(s, t, stored), c)
  {
    if ChannelOf(s, t) != c {
      CommitElsewhere(s, t, stored, c);
    } else if c in s.store {
      CommitStoresGrant(s, t, stored, c);
    }
  }

  lemma EditIsSafe(s: State, d: Channel, r: Record, c: Channel)
    requires TokensIssued(s) && Unspent(s, c) && EditAllowed(s, d, r)
    ensures TokensIssued(EditStep(s, d, r)) && Unspent(EditStep(s, d, r), c)
  {
    var next := EditStep(s, d, r);
    if c in next.store && Credential(next.store[c]).Some? && Credential(next.store[c]).value in s.spent {
      var k := Credential(next.store[c]).value;
      assert c in s.store && Credential(s.store[c]) == Some(k);
      var u :| GrantedFor(s, u, c, k);
      assert GrantedFor(next, u, c, k);
    }
  }

  lemma StepIsSafe(s: State, e: Event, c: Channel)
    requires Linked(s) && TokensIssued(s) && Unspent(s, c) && Enabled(s, e) && !Loses(s, e, c)
    ensures TokensIssued(Step(s, e)) && Unspent(Step(s, e), c)
  {
    LinkedIsExclusive(s);
    match e
    case Read(t) =>
      ReadIssued(s, t);
      ReadIsSafe(s, t, c);
    case Present(t, accepted, rotates, access) =>
      PresentIssued(s, t, accepted, rotates, access);
      PresentIsSafe(s, t, accepted, rotates, access, c);
    case Commit(t, stored) =>
      CommitIssued(s, t, stored);
      CommitIsSafe(s, t, stored, c);
    case Stamp(t) => StampIsSafe(s, t, c);
    case Cancel(t) =>
      CancelIssued(s, t);
      CancelIsSafe(s, t, c);
    case Edit(d, r) => EditIsSafe(s, d, r, c);
    case Tick(_) => QuietKeeps(s, Step(s, e), c);
    case _ =>
      LockStepsQuiet(s, e, c);
      QuietKeeps(s, Step(s, e), c);
  }

  /** A token once rotated away is recorded as spent if it comes back. */
  ghost predicate LogTells(s: State) {
    && (forall i :: 0 <= i < |s.log| && s.log[i].rotated ==> s.log[i].token in s.spent)
    && (forall i, j :: 0 <= i < j < |s.log| && s.log[i].rotated && s.log[i].token == s.log[j].token ==>
          s.log[j].wasSpent)
  }

  lemma StepTells(s: State, e: Event)
    requires LogTells(s) && Enabled(s, e)
    ensures LogTells(Step(s, e))
  {
    if e.Present? { PresentTells(s, e.task, e.accepted, e.rotates, e.access); }
  }

  lemma PresentTells(s: State, t: Task, accepted: bool, rotates: bool, access: nat)
    requires LogTells(s) && Enabled(s, Present(t, accepted, rotates, access))
    ensures LogTells(PresentStep(s, t, accepted, rotates, access))
  {
  }

  // ------------------------------------------------------------------ spacing

  ghost predicate StampsTrue(s: State) {
    && 0 <= s.now <= I64_MAX
    && (forall c | c in s.committed :: c in s.store && LastRefresh(s.store[c]) == Some(s.committed[c])
                                       && s.committed[c] <= s.now)
    && (forall t | Stamped(s, t) :: s.work[t].phase.clock.value <= s.now)
  }

  ghost predicate ReadySpaced(s: State) {
    forall t | At(s, t) && s.work[t].phase.Ready? && s.work[t].mode.Feedback? ::
      ChannelOf(s, t) in s.committed ==> s.now - s.committed[ChannelOf(s, t)] > WINDOW
  }

  ghost predicate LogSpaced(s: State) {
    forall i :: 0 <= i < |s.log| && s.log[i].feedback && s.log[i].gap.Some? ==> s.log[i].gap.value > WINDOW
  }

  ghost predicate Spaced(s: State) {
    ReadySpaced(s) && LogSpaced(s)
  }

  lemma StepStamps(s: State, e: Event)
    requires StampsTrue(s) && Enabled(s, e)
    ensures StampsTrue(Step(s, e))
  {
    match e
    case Commit(t, stored) => CommitStamps(s, t, stored);
    case Read(_) =>
    case Present(_, _, _, _) =>
    case Stamp(_) =>
    case Edit(_, _) =>
    case Tick(_) =>
    case _ => LockStepsStamps(s, e);
  }

  lemma LockStepsStamps(s: State, e: Event)
    requires StampsTrue(s) && Enabled(s, e)
    requires e.Begin? || e.Take? || e.Unlock? || e.Forget? || e.Cancel?
    ensures StampsTrue(Step(s, e))
  {
    if e.Cancel? { CancelElsewhere(s, e.task); } else { SeatsElsewhere(s, e); }
  }

  lemma CommitStamps(s: State, t: Task, stored: bool)
    requires StampsTrue(s) && Enabled(s, Commit(t, stored))
    ensures StampsTrue(CommitStep(s, t, stored))
  {
  }

  /** A stored rotation is on record with the clock read after its grant, unless
      an operator changed the channel's kind or its refresh stamp meanwhile. */
  lemma CommitRecordsTime(s: State, t: Task)
    requires Enabled(s, Commit(t, true)) && Swaps(s, t, true) && Credential(s.work[t].phase.seen).Some?
    requires var cur, seen := s.store[ChannelOf(s, t)], s.work[t].phase.seen;
             cur.kind == seen.kind && cur.stamp == seen.stamp
    ensures var c, next, clock := ChannelOf(s, t), CommitStep(s, t, true), s.work[t].phase.clock;
            c in next.committed && Some(next.committed[c]) == clock == LastRefresh(next.store[c])
  {
    var cur, p := s.store[ChannelOf(s, t)], s.work[t].phase;
    assert LastRefresh(Rotated(cur, p.seen, p.grant, p.clock.value)) == p.clock;
  }

  lemma ReadySame(s: State, next: State)
    requires Spaced(s) && next.log == s.log
    requires next.committed == s.committed && next.now >= s.now
    requires forall t | At(next, t) && next.work[t].phase.Ready? ::
               At(s, t) && s.work[t] == next.work[t] && ChannelOf(s, t) == ChannelOf(next, t)
    ensures Spaced(next)
  {
  }

  lemma ReadIsSpaced(s: State, t: Task)
    requires StampsTrue(s) && Spaced(s) && Enabled(s, Read(t))
    ensures Spaced(ReadStep(s, t))
  {
  }

  lemma CommitIsSpaced(s: State, t: Task, stored: bool)
    requires Exclusive(s) && Spaced(s) && Enabled(s, Commit(t, stored))
    ensures Spaced(CommitStep(s, t, stored))
  {
  }

  lemma PresentIsSpaced(s: State, t: Task, accepted: bool, rotates: bool, access: nat)
    requires Spaced(s) && Enabled(s, Present(t, accepted, rotates, access))
    ensures Spaced(PresentStep(s, t, accepted, rotates, access))
  {
  }

  lemma StampIsSpaced(s: State, t: Task)
    requires Spaced(s) && Enabled(s, Stamp(t))
    ensures Spaced(StampStep(s, t))
  {
  }

  lemma EditIsSpaced(s: State, c: Channel, r: Record)
    requires Spaced(s)
    ensures Spaced(EditStep(s, c, r))
  {
  }

  lemma TickIsSpaced(s: State, d: nat)
    requires Spaced(s)
    ensures Spaced(s.(now := s.now + d))
  {
    ReadySame(s, s.(now := s.now + d));
  }

  lemma StepIsSpaced(s: State, e: Event)
    requires Linked(s) && StampsTrue(s) && Spaced(s) && Enabled(s, e)
    ensures Spaced(Step(s, e))
  {
    match e
    case Read(t) => ReadIsSpaced(s, t);
    case Present(t, accepted, rotates, access) => PresentIsSpaced(s, t, accepted, rotates, access);
    case Commit(t, stored) =>
      LinkedIsExclusive(s);
      CommitIsSpaced(s, t, stored);
    case Stamp(t) => StampIsSpaced(s, t);
    case Edit(c, r) => EditIsSpaced(s, c, r);
    case Tick(d) => TickIsSpaced(s, d);
    case _ => LockStepsSpaced(s, e);
  }

  lemma LockStepsSpaced(s: State, e: Event)
    requires Linked(s) && Spaced(s) && Enabled(s, e)
    requires e.Begin? || e.Take? || e.Unlock? || e.Forget? || e.Cancel?
    ensures Spaced(Step(s, e))
  {
    if e.Cancel? { CancelElsewhere(s, e.task); } else { SeatsElsewhere(s, e); }
    ReadySame(s, Step(s, e));
  }

  // ------------------------------------------------------------- main results

  lemma StartHolds(now: int)
    ensures Linked(Start(now)) && TokensIssued(Start(now)) && LogTells(Start(now))
  {
    OAuthLocks.InitInv();
  }

  lemma {:induction false} RunLinked(now: int, events: seq<Event>)
    ensures Linked(Run(now, events)) && LogTells(Run(now, events))
  {
    if events == [] {
      StartHolds(now);
    } else {
      var s, e := Run(now, events[..|events| - 1]), events[|events| - 1];
      RunLinked(now, events[..|events| - 1]);
      if Enabled(s, e) {
        StepKeepsLinked(s, e);
        StepTells(s, e);
      }
    }
  }

  /** In every run, at most one task per channel is between taking the lock and
      releasing it, so between reading a credential and storing its successor. */
  lemma OneRefreshPerChannel(now: int, events: seq<Event>)
    ensures Exclusive(Run(now, events))
  {
    RunLinked(now, events);
    LinkedIsExclusive(Run(now, events));
  }

  lemma {:induction false} RunIssued(now: int, events: seq<Event>)
    ensures TokensIssued(Run(now, events))
  {
    if events != [] {
      var s, e := Run(now, events[..|events| - 1]), events[|events| - 1];
      RunIssued(now, events[..|events| - 1]);
      if Enabled(s, e) { StepIssued(s, e); }
    }
  }

  lemma StepIssued(s: State, e: Event)
    requires TokensIssued(s) && Enabled(s, e)
    ensures TokensIssued(Step(s, e))
  {
    match e
    case Read(t) => ReadIssued(s, t);
    case Present(t, accepted, rotates, access) => PresentIssued(s, t, accepted, rotates, access);
    case Commit(t, stored) => CommitIssued(s, t, stored);
    case Cancel(t) => CancelIssued(s, t);
    case Stamp(_) =>
    case Edit(_, _) =>
    case Tick(_) =>
    case _ => LockStepsIssued(s, e);
  }

  lemma LockStepsIssued(s: State, e: Event)
    requires TokensIssued(s) && Enabled(s, e) && (e.Begin? || e.Take? || e.Unlock? || e.Forget?)
    ensures TokensIssued(Step(s, e))
  {
    SeatsElsewhere(s, e);
  }

  lemma RunNext(now: int, events: seq<Event>, n: nat)
    requires n < |events|
    ensures var s := Run(now, events[..n]);
            Run(now, events[..n + 1]) == if Enabled(s, events[n]) then Step(s, events[n]) else s
  {
    assert events[..n + 1][..n] == events[..n];
  }

  lemma {:induction false} RunUnspent(now: int, events: seq<Event>, c: Channel, n: nat)
    requires NoneLost(now, events, c) && n <= |events|
    ensures Unspent(Run(now, events[..n]), c)
    decreases n
  {
    if n > 0 {
      RunUnspent(now, events, c, n - 1);
      RunNext(now, events, n - 1);
      RunLinked(now, events[..n - 1]);
      RunIssued(now, events[..n - 1]);
      var s, e := Run(now, events[..n - 1]), events[n - 1];
      if Enabled(s, e) { StepIsSafe(s, e, c); }
    }
  }

  /** If no rotation of a channel is lost, no task of any entry point ever presents,
      on that channel, a token upstream has rotated away: whatever the other
      channels, the interleaving and the operator's edits. */
  lemma NoSpentTokenPresented(now: int, events: seq<Event>, c: Channel)
    requires NoneLost(now, events, c)
    ensures var log := Run(now, events).log;
            && (forall i :: 0 <= i < |log| && log[i].channel == c ==> !log[i].wasSpent)
            && (forall i, j :: 0 <= i < j < |log| && log[j].channel == c && log[i].rotated ==>
                  log[i].token != log[j].token)
  {
    RunUnspent(now, events, c, |events|);
    assert events[..|events|] == events;
    RunLinked(now, events);
  }

  // ------------------------------------------------------------- lost rotations

  /** Storage has a spent token for the channel, and no replacement is on the way. */
  ghost predicate Stale(s: State, c: Channel, k: Token) {
    && c in s.store && Credential(s.store[c]) == Some(k) && k in s.spent
    && (forall t | At(s, t) && ChannelOf(s, t) == c ::
          && !s.work[t].phase.Granted?
          && (s.work[t].phase.Ready? ==> Credential(s.work[t].phase.seen) == Some(k)))
  }

  lemma LossIsStale(s: State, e: Event, c: Channel, k: Token)
    requires Linked(s) && LosesToken(s, e, c, k)
    ensures Stale(Step(s, e), c, k) && Step(s, e).log == s.log
  {
    LinkedIsExclusive(s);
    if e.Cancel? {
      CancelElsewhere(s, e.task);
      CancelSeats(s.locks, e.task);
    }
  }

  /** The invariant of safety fails at a step exactly when the step loses. */
  lemma StepSafeExact(s: State, e: Event, c: Channel)
    requires Linked(s) && TokensIssued(s) && Unspent(s, c) && Enabled(s, e)
    ensures Unspent(Step(s, e), c) <==> !Loses(s, e, c)
  {
    if k :| LosesToken(s, e, c, k) {
      LossIsStale(s, e, c, k);
      assert forall t :: !GrantedFor(Step(s, e), t, c, k);
    } else {
      StepIsSafe(s, e, c);
    }
  }

  /** In every run: the stored token is one upstream accepts, or its replacement is
      on the way, at every point, if and only if no event loses a rotation. */
  lemma TokenSafetyExact(now: int, events: seq<Event>, c: Channel)
    ensures (forall n :: 0 <= n <= |events| ==> Unspent(Run(now, events[..n]), c)) <==> NoneLost(now, events, c)
  {
    if forall n :: 0 <= n <= |events| ==> Unspent(Run(now, events[..n]), c) {
      forall n | 0 <= n < |events| ensures !Loses(Run(now, events[..n]), events[n], c) {
        var s, e := Run(now, events[..n]), events[n];
        assert Unspent(s, c) && Unspent(Run(now, events[..n + 1]), c);
        RunNext(now, events, n);
        RunLinked(now, events[..n]);
        RunIssued(now, events[..n]);
        if Enabled(s, e) { StepSafeExact(s, e, c); }
      }
    }
    if NoneLost(now, events, c) {
      forall n | 0 <= n <= |events| ensures Unspent(Run(now, events[..n]), c) { RunUnspent(now, events, c, n); }
    }
  }

  ghost predicate LogSpentFrom(s: State, n: nat, c: Channel, k: Token) {
    forall i :: n <= i < |s.log| && s.log[i].channel == c ==> s.log[i].wasSpent && s.log[i].token == k
  }

  lemma StaleStays(s: State, e: Event, c: Channel, k: Token, n: nat)
    requires Stale(s, c, k) && LogSpentFrom(s, n, c, k) && n <= |s.log| && Enabled(s, e)
    requires !(e.Edit? && e.channel == c)
    ensures var next := Step(s, e); Stale(next, c, k) && LogSpentFrom(next, n, c, k) && n <= |next.log|
  {
    match e
    case Read(_) =>
    case Present(_, _, _, _) =>
    case Stamp(_) =>
    case Commit(_, _) =>
    case Edit(_, _) =>
    case Tick(_) =>
    case _ => LockStepsStale(s, e, c, k);
  }

  lemma LockStepsStale(s: State, e: Event, c: Channel, k: Token)
    requires Stale(s, c, k) && Enabled(s, e)
    requires e.Begin? || e.Take? || e.Unlock? || e.Forget? || e.Cancel?
    ensures Stale(Step(s, e), c, k) && Step(s, e).log == s.log
  {
    if e.Cancel? { CancelElsewhere(s, e.task); } else { SeatsElsewhere(s, e); }
  }

  /** A lost rotation is not made up for: until an operator edits the channel, the
      spent token stays stored, and every refresh of the channel that gets as far
      as upstream presents it again. */
  lemma {:induction false} LostRotationStays(now: int, events: seq<Event>, e: Event, more: seq<Event>,
                                             c: Channel, k: Token)
    requires LosesToken(Run(now, events), e, c, k)
    requires forall i :: 0 <= i < |more| ==> !(more[i].Edit? && more[i].channel == c)
    ensures var s, n := Run(now, events + [e] + more), |Run(now, events).log|;
            Stale(s, c, k) && n <= |s.log| && LogSpentFrom(s, n, c, k)
    decreases |more|
  {
    var n := |Run(now, events).log|;
    if more == [] {
      assert events + [e] + more == events + [e];
      RunSnoc(now, events, e);
      RunLinked(now, events);
      LossIsStale(Run(now, events), e, c, k);
    } else {
      var front, last := more[..|more| - 1], more[|more| - 1];
      LostRotationStays(now, events, e, front, c, k);
      assert events + [e] + more == events + [e] + front + [last];
      RunSnoc(now, events + [e] + front, last);
      var s := Run(now, events + [e] + front);
      if Enabled(s, last) { StaleStays(s, last, c, k, n); }
    }
  }

  lemma {:induction false} RunSpaced(now: int, events: seq<Event>)
    requires 0 <= now <= I64_MAX
    ensures var s := Run(now, events); StampsTrue(s) && Spaced(s)
  {
    if events != [] {
      var s, e := Run(now, events[..|events| - 1]), events[|events| - 1];
      RunSpaced(now, events[..|events| - 1]);
      RunLinked(now, events[..|events| - 1]);
      if Enabled(s, e) {
        StepStamps(s, e);
        StepIsSpaced(s, e);
      }
    }
  }

  /** In every run, a feedback refresh is presented more than 30 seconds after the
      stamp of the channel's last committed refresh, through every edit that
      leaves that stamp alone. */
  lemma FeedbackRefreshesAreSpaced(now: int, events: seq<Event>)
    requires 0 <= now <= I64_MAX
    ensures var log := Run(now, events).log;
            forall i :: 0 <= i < |log| && log[i].feedback && log[i].gap.Some? ==> log[i].gap.value > WINDOW
  {
    RunSpaced(now, events);
  }

  lemma RunSnoc(now: int, events: seq<Event>, e: Event)
    ensures var s := Run(now, events);
            Run(now, events + [e]) == if Enabled(s, e) then Step(s, e) else s
  {
    assert (events + [e])[..|events|] == events;
  }

  /** Losses happen: when the request that was granted a rotation is dropped before
      storing it, the next refresh of the channel presents the spent token. */
  lemma DroppedGrantReplaysToken()
    ensures exists events, n: nat ::
              && n < |events| && events[n] == Cancel(1) && Loses(Run(1000, events[..n]), events[n], 7)
              && var log := Run(1000, events).log; |log| == 2 && log[1].channel == 7 && log[1].wasSpent
  {
    var r := Record(Imported, PlainKey(1), true, Some(Token(7, 0)), None);
    var edited := [Edit(7, r)];
    RunSnoc(1000, [], Edit(7, r));
    assert [] + [Edit(7, r)] == edited;
    var granted := PresentAlone(edited, 1);
    assert LosesToken(Run(1000, granted), Cancel(1), 7, Token(7, 0));
    DropAlone(granted, 1);
    var replayed := PresentAlone(granted + [Cancel(1)], 2);
    PrefixOf(granted, Cancel(1), replayed);
    var log := Run(1000, replayed).log;
    assert |log| == 2 && log[1].channel == 7 && log[1].wasSpent;
  }

  lemma PrefixOf(events: seq<Event>, e: Event, all: seq<Event>)
    requires events + [e] <= all
    ensures |events| < |all| && all[..|events|] == events && all[|events|] == e
  {
  }

  /** Channel 7 as the example leaves it, with nobody at work. */
  ghost predicate Idle(s: State) {
    && s.work == map[] && s.now == 1000 && s.committed == map[]
    && s.store.Keys == {7} && s.store[7] == Record(Imported, PlainKey(1), true, Some(Token(7, 0)), None)
  }

  lemma DropAlone(events: seq<Event>, t: Task)
    requires var s := Run(1000, events); t in s.work && Idle(s.(work := s.work - {t}))
    ensures var s, next := Run(1000, events), Run(1000, events + [Cancel(t)]);
            Idle(next) && next.log == s.log && next.spent == s.spent
  {
    RunSnoc(1000, events, Cancel(t));
    RunLinked(1000, events);
  }

  lemma EnterAlone(events: seq<Event>, t: Task) returns (more: seq<Event>)
    requires Idle(Run(1000, events))
    ensures events <= more
    ensures var s, next := Run(1000, events), Run(1000, more);
            && next == s.(work := map[t := Work(Feedback, Inside)], locks := next.locks)
            && t in next.locks.seats && next.locks.seats[t].channel == 7
  {
    RunLinked(1000, events);
    var queued := events + [Begin(t, 7, Feedback)];
    RunSnoc(1000, events, Begin(t, 7, Feedback));
    RunLinked(1000, queued);
    var s := Run(1000, queued);
    assert s.work == map[t := Work(Feedback, Queued)] && s.locks.seats[t].channel == 7;
    assert s.locks.seats[t].lock !in s.locks.holder;
    more := queued + [Take(t)];
    RunSnoc(1000, queued, Take(t));
  }

  lemma PresentAlone(events: seq<Event>, t: Task) returns (more: seq<Event>)
    requires Idle(Run(1000, events))
    ensures events <= more
    ensures var s, next, k := Run(1000, events), Run(1000, more), Token(7, 0);
            k !in s.spent ==> GrantedFor(next, t, 7, k)
    ensures var s, next, k := Run(1000, events), Run(1000, more), Token(7, 0);
            && next.log == s.log + [Presented(7, k, k in s.spent, k !in s.spent, true, None)]
            && t in next.work && Idle(next.(work := next.work - {t})) && next.spent == s.spent + {k}
  {
    var inside := EnterAlone(events, t);
    var read := inside + [Read(t)];
    RunSnoc(1000, inside, Read(t));
    more := read + [Present(t, true, true, 5)];
    RunSnoc(1000, read, Present(t, true, true, 5));
  }
}
