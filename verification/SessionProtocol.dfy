/** Creating a sync session over a network that loses, delays and repeats messages.

    The agent persists its idempotency key before the first request and reuses it
    only for the same request; the hub binds a key to the hash of the request it
    first saw. A fingerprint stands for the request it was computed from. */
module SessionProtocol {
  import opened Text
  import opened Wrappers

  datatype SaveState = SaveState(streamId: string, baseRevisionId: string, contentHash: string, hasLocalData: bool)

  datatype InventoryEntry = InventoryEntry(clientItemId: string, platformId: string, sha256: string, size: nat)

  datatype Request = Request(deviceId: string, inventory: seq<InventoryEntry>, saves: seq<SaveState>)

  /*************** the hub ***************/

  /** The unique key of sync_sessions. */
  datatype Slot = Slot(device: string, key: string)

  datatype Session = Session(id: string, manifest: string)

  datatype Reply = Created(id: string) | Replayed(id: string) | IdempotencyConflict | Rejected

  predicate ValidKey(key: string) {
    8 <= Utf8Length(key) <= 128 && forall i | 0 <= i < |key| :: key[i] !in {'\0', '\r', '\n'}
  }

  lemma ValidKeyMeans(key: string)
    ensures ValidKey(key) <==> 8 <= Utf8Length(key) <= 128 && OneLine(key)
  {
    forall c: char | c in key && c in {'\0', '\r', '\n'} ensures !ValidKey(key) {
      var i :| 0 <= i < |key| && key[i] == c;
    }
  }

  /** CreateSyncSession as one atomic step; `stored` says whether the transaction commits. */
  function Create(sessions: map<Slot, Session>, slot: Slot, manifest: string, id: string,
                  stored: bool): (map<Slot, Session>, Reply)
  {
    if slot.device == "" || !ValidKey(slot.key) then (sessions, Rejected)
    else if slot in sessions then
      (sessions, if sessions[slot].manifest == manifest then Replayed(sessions[slot].id) else IdempotencyConflict)
    else if stored then (sessions[slot := Session(id, manifest)], Created(id))
    else (sessions, Rejected)
  }

  class Hub {
    var sessions: map<Slot, Session>

    constructor ()
      ensures sessions == map[]
    {
      sessions := map[];
    }

    /** Device and key lose the white space around them first. */
    method CreateSyncSession(device: string, key: string, manifest: string, id: string, stored: bool)
      returns (reply: Reply)
      modifies this
      ensures (sessions, reply) == Create(old(sessions), Slot(TrimSpace(device), TrimSpace(key)), manifest, id, stored)
      ensures Answers(old(sessions), sessions, Slot(TrimSpace(device), TrimSpace(key)), manifest, id, stored, reply)
    {
      var slot := Slot(TrimSpace(device), TrimSpace(key));
      ValidKeyMeans(slot.key);
      if slot.device == "" || !ValidKey(slot.key) { return Rejected; }
      if slot in sessions {
        var existing := sessions[slot];
        if existing.manifest != manifest { return IdempotencyConflict; }
        return Replayed(existing.id);
      }
      if !stored { return Rejected; }
      sessions := sessions[slot := Session(id, manifest)];
      return Created(id);
    }
  }

  /** A known key answers with its session, or with a conflict to another request; a new one
      makes a session. Nothing else changes. */
  ghost predicate Answers(before: map<Slot, Session>, after: map<Slot, Session>, slot: Slot, manifest: string,
                          id: string, stored: bool, reply: Reply)
  {
    var valid := slot.device != "" && 8 <= Utf8Length(slot.key) <= 128 && OneLine(slot.key);
    && (!valid ==> reply == Rejected && after == before)
    && (valid && slot in before ==>
          && after == before
          && (before[slot].manifest == manifest ==> reply == Replayed(before[slot].id))
          && (before[slot].manifest != manifest ==> reply == IdempotencyConflict))
    && (valid && slot !in before ==>
          if stored then reply == Created(id) && after == before[slot := Session(id, manifest)]
          else reply == Rejected && after == before)
  }

  /*************** the agent ***************/

  datatype Pending = Pending(key: string, fingerprint: Request)

  /** The key a request is sent with, and the pending entry on disk before it is sent. */
  function Choose(pending: Option<Pending>, request: Request, random: string): Pending {
    if pending.Some? && pending.value.fingerprint == request then pending.value else Pending(random, request)
  }

  class Agent {
    /** What the configuration file holds. */
    var pending: Option<Pending>

    constructor ()
      ensures pending == None
    {
      pending := None;
    }

    /** The start of syncOnce's exchange; fails when the configuration cannot be
        written, and then nothing is sent. */
    method ChooseKey(request: Request, random: string, saved: bool) returns (key: Option<string>)
      modifies this
      ensures key.Some? ==> pending == Some(Choose(old(pending), request, random)) && key.value == pending.value.key
      ensures key.None? ==> pending == old(pending)
      ensures key.None? <==> !saved && (old(pending).None? || old(pending).value.fingerprint != request)
      ensures old(pending).Some? && old(pending).value.fingerprint == request ==>
                pending == old(pending) && key == Some(old(pending).value.key)
      ensures saved && (old(pending).None? || old(pending).value.fingerprint != request) ==>
                pending == Some(Pending(random, request)) && key == Some(random)
    {
      if pending.Some? && pending.value.fingerprint == request { return Some(pending.value.key); }
      if !saved { return None; }
      pending := Some(Pending(random, request));
      return Some(random);
    }

    method Clear()
      modifies this
      ensures pending == None
    {
      pending := None;
    }
  }

  /*************** the two parties and the network ***************/

  datatype Message = Message(key: string, request: Request)

  /** `sent` holds every message ever put on the network: any of them may arrive
      now, later, several times or never. `used` lists every key drawn so far. */
  datatype World = World(pending: Option<Pending>, active: Option<Message>, sent: set<Message>,
                         sessions: map<Slot, Session>, answers: seq<(Message, Reply)>, used: set<string>)

  datatype Step =
    | Begin(request: Request, random: string, saved: bool)
    | Post
    | Deliver(message: Message, id: string, stored: bool)
    | Stop
    | Finish

  /** The hub for one device, with the hash it computes from a normalized request. */
  datatype Setting = Setting(device: string, manifest: Request -> string)

  predicate Answered(w: World, m: Message) {
    exists i :: 0 <= i < |w.answers| && w.answers[i].0 == m && (w.answers[i].1.Created? || w.answers[i].1.Replayed?)
  }

  /** Only one run at a time, random keys and session ids never repeat, only sent
      messages arrive, and a run finishes only after its request was answered. */
  ghost predicate Legal(w: World, step: Step) {
    match step
    case Begin(_, random, _) => w.active.None? && random !in w.used
    case Post => w.active.Some?
    case Deliver(m, id, _) => m in w.sent && forall s | s in w.sessions :: w.sessions[s].id != id
    case Stop => true
    case Finish => w.active.Some? && Answered(w, w.active.value)
  }

  function Next(setting: Setting, w: World, step: Step): World {
    match step
    case Begin(request, random, saved) =>
      var chosen := Choose(w.pending, request, random);
      var used := w.used + {random};
      if saved || w.pending == Some(chosen)
      then w.(pending := Some(chosen), active := Some(Message(chosen.key, request)), used := used)
      else w.(used := used)
    case Post => if w.active.Some? then w.(sent := w.sent + {w.active.value}) else w
    case Deliver(m, id, stored) =>
      var (sessions, reply) := Create(w.sessions, Slot(setting.device, m.key), setting.manifest(m.request), id, stored);
      w.(sessions := sessions, answers := w.answers + [(m, reply)])
    case Stop => w.(active := None)
    case Finish => w.(active := None, pending := None)
  }

  /** A run only starts with its key on disk, and an unchanged request keeps its key. */
  lemma BeginSaves(setting: Setting, w: World, step: Step)
    requires step.Begin?
    ensures var (w', kept) := (Next(setting, w, step), w.pending.Some? && w.pending.value.fingerprint == step.request);
      && (kept ==> w'.pending == w.pending && w'.active == Some(Message(w.pending.value.key, step.request)))
      && (!kept && step.saved ==>
            && w'.pending == Some(Pending(step.random, step.request))
            && w'.active == Some(Message(step.random, step.request)))
      && (!kept && !step.saved ==> w'.pending == w.pending && w'.active == w.active)
      && w'.sent == w.sent && w'.sessions == w.sessions && w'.answers == w.answers
  {
  }

  /** The worlds a run of steps goes through. */
  ghost predicate Run(setting: Setting, ws: seq<World>, steps: seq<Step>) {
    && |ws| == |steps| + 1
    && forall i | 0 <= i < |steps| :: Legal(ws[i], steps[i]) && ws[i + 1] == Next(setting, ws[i], steps[i])
  }

  /** Nothing has happened yet for this device; other devices may have sessions. */
  ghost predicate Start(setting: Setting, w: World) {
    && w.pending == None && w.active == None && w.sent == {} && w.answers == [] && w.used == {}
    && forall s | s in w.sessions :: s.device != setting.device
  }

  /*************** one key, one request ***************/

  /** The message was chosen by this agent. */
  ghost predicate Known(w: World, m: Message) {
    m in w.sent || w.active == Some(m) || w.pending == Some(Pending(m.key, m.request))
  }

  ghost predicate KeysAreUsed(w: World) {
    forall m | Known(w, m) :: m.key in w.used
  }

  ghost predicate OneRequestPerKey(w: World) {
    forall m, n | Known(w, m) && Known(w, n) && m.key == n.key :: m == n
  }

  ghost predicate SessionsAreBound(setting: Setting, w: World) {
    forall s | s in w.sessions && s.device == setting.device ::
      exists m :: m in w.sent && m.key == s.key && w.sessions[s].manifest == setting.manifest(m.request)
  }

  ghost predicate AnswersAgree(setting: Setting, w: World) {
    forall i | 0 <= i < |w.answers| ::
      var (m, reply) := w.answers[i];
      && m in w.sent
      && reply != IdempotencyConflict
      && (reply.Created? || reply.Replayed? ==>
            Slot(setting.device, m.key) in w.sessions && w.sessions[Slot(setting.device, m.key)].id == reply.id)
  }

  ghost predicate Consistent(setting: Setting, w: World) {
    KeysAreUsed(w) && OneRequestPerKey(w) && SessionsAreBound(setting, w) && AnswersAgree(setting, w)
  }

  lemma BeginKeeps(setting: Setting, w: World, step: Step)
    requires step.Begin? && Legal(w, step) && KeysAreUsed(w) && OneRequestPerKey(w)
    ensures KeysAreUsed(Next(setting, w, step)) && OneRequestPerKey(Next(setting, w, step))
  {
    var w' := Next(setting, w, step);
    var chosen := Choose(w.pending, step.request, step.random);
    var m' := Message(chosen.key, step.request);
    forall m | Known(w', m) ensures Known(w, m) || (m == m' && chosen.key == step.random) {
      if !Known(w, m) { assert m == m'; }
    }
  }

  lemma DeliverKeeps(setting: Setting, w: World, step: Step)
    requires step.Deliver? && Legal(w, step) && Consistent(setting, w)
    ensures SessionsAreBound(setting, Next(setting, w, step)) && AnswersAgree(setting, Next(setting, w, step))
  {
    var w' := Next(setting, w, step);
    var slot := Slot(setting.device, step.message.key);
    assert Known(w, step.message);
    if slot in w.sessions {
      var m :| m in w.sent && m.key == slot.key && w.sessions[slot].manifest == setting.manifest(m.request);
      assert Known(w, m);
    }
    forall i | 0 <= i < |w'.answers| ensures
      var (m, reply) := w'.answers[i];
      && m in w'.sent && reply != IdempotencyConflict
      && (reply.Created? || reply.Replayed? ==>
            Slot(setting.device, m.key) in w'.sessions && w'.sessions[Slot(setting.device, m.key)].id == reply.id)
    {
      if i < |w.answers| { assert w'.answers[i] == w.answers[i]; }
    }
  }

  lemma StepKeeps(setting: Setting, w: World, step: Step)
    requires Legal(w, step) && Consistent(setting, w)
    ensures Consistent(setting, Next(setting, w, step))
  {
    var w' := Next(setting, w, step);
    match step
    case Begin(_, _, _) =>
      BeginKeeps(setting, w, step);
    case Deliver(_, _, _) =>
      DeliverKeeps(setting, w, step);
      assert forall m :: Known(w', m) <==> Known(w, m);
    case Post =>
      assert forall m :: Known(w', m) <==> Known(w, m);
    case Stop =>
      assert forall m :: Known(w', m) ==> Known(w, m);
    case Finish =>
      assert forall m :: Known(w', m) ==> Known(w, m);
  }

  lemma {:induction false} RunKeeps(setting: Setting, ws: seq<World>, steps: seq<Step>, i: nat)
    requires Run(setting, ws, steps) && Consistent(setting, ws[0]) && i <= |steps|
    ensures Consistent(setting, ws[i])
  {
    if i > 0 {
      RunKeeps(setting, ws, steps, i - 1);
      StepKeeps(setting, ws[i - 1], steps[i - 1]);
    }
  }

  /** Whatever is lost, repeated or reordered and wherever the agent stops, no
      request of this agent is ever told that its key belongs to another request,
      and all successful answers to one key name the same session. */
  lemma NeverConflicts(setting: Setting, ws: seq<World>, steps: seq<Step>)
    requires Run(setting, ws, steps) && Start(setting, ws[0])
    ensures var last := ws[|steps|];
      && (forall i | 0 <= i < |last.answers| :: last.answers[i].1 != IdempotencyConflict)
      && (forall i, j | 0 <= i < |last.answers| && 0 <= j < |last.answers| ::
            var (m, a) := last.answers[i];
            var (n, b) := last.answers[j];
            (a.Created? || a.Replayed?) && (b.Created? || b.Replayed?) && m.key == n.key ==> m == n && a.id == b.id)
  {
    RunKeeps(setting, ws, steps, |steps|);
    var last := ws[|steps|];
    forall i | 0 <= i < |last.answers| ensures Known(last, last.answers[i].0) {
    }
  }

  /*************** retries of one request ***************/

  /** Every run started here wants the same request, and none finishes. */
  predicate Retries(steps: seq<Step>, request: Request) {
    forall i | 0 <= i < |steps| :: (steps[i].Begin? ==> steps[i].request == request) && !steps[i].Finish?
  }

  /** Messages already on their way, or about to be, when the retries start. */
  predicate Stale(first: World, m: Message) {
    m in first.sent || first.active == Some(m)
  }

  /** A message sent by the retries is the one the pending entry stands for. */
  ghost predicate OneMessage(first: World, w: World, request: Request) {
    forall m | m in w.sent || w.active == Some(m) ::
      Stale(first, m) || (m.request == request && w.pending == Some(Pending(m.key, request)))
  }

  ghost predicate OnlyAdds(setting: Setting, first: World, w: World) {
    && (forall s | s in first.sessions :: s in w.sessions && w.sessions[s] == first.sessions[s])
    && (forall s | s in w.sessions && s !in first.sessions :: s.device == setting.device && exists m ::
          m in w.sent && m.key == s.key)
  }

  lemma RetryStep(setting: Setting, first: World, w: World, step: Step, request: Request)
    requires Legal(w, step) && Retries([step], request)
    requires OneMessage(first, w, request) && OnlyAdds(setting, first, w)
    ensures OneMessage(first, Next(setting, w, step), request) && OnlyAdds(setting, first, Next(setting, w, step))
  {
    var w' := Next(setting, w, step);
    assert [step][0] == step;
    match step
    case Begin(_, random, _) =>
      if w'.pending != w.pending {
        assert forall m | m in w.sent :: Stale(first, m);
      }
    case Deliver(m, _, _) =>
      assert m in w'.sent;
    case Post =>
    case Stop =>
    case Finish =>
  }

  lemma {:induction false} RetryRun(setting: Setting, ws: seq<World>, steps: seq<Step>, request: Request, i: nat)
    requires Run(setting, ws, steps) && Retries(steps, request) && i <= |steps|
    ensures OneMessage(ws[0], ws[i], request) && OnlyAdds(setting, ws[0], ws[i])
  {
    if i > 0 {
      RetryRun(setting, ws, steps, request, i - 1);
      RetryStep(setting, ws[0], ws[i - 1], steps[i - 1], request);
    }
  }

  /** Sessions the retries added. */
  function Added(first: World, last: World): set<Slot> {
    last.sessions.Keys - first.sessions.Keys
  }

  lemma AddedSlot(setting: Setting, first: World, last: World, request: Request, s: Slot)
    requires OneMessage(first, last, request) && OnlyAdds(setting, first, last) && s in Added(first, last)
    ensures (exists m :: Stale(first, m) && m.key == s.key)
            || (last.pending.Some? && s == Slot(setting.device, last.pending.value.key))
  {
    var m :| m in last.sent && m.key == s.key;
    if Stale(first, m) { assert m.key == s.key; }
  }

  lemma AddedWithoutStale(setting: Setting, first: World, last: World, request: Request)
    requires OneMessage(first, last, request) && OnlyAdds(setting, first, last)
    requires forall m | Stale(first, m) :: Slot(setting.device, m.key) in first.sessions
    ensures |Added(first, last)| <= 1
  {
    forall s | s in Added(first, last) ensures last.pending.Some? && s == Slot(setting.device, last.pending.value.key) {
      AddedSlot(setting, first, last, request, s);
    }
    if s :| s in Added(first, last) {
      assert Added(first, last) == {s};
    }
  }

  lemma AnsweredHasSession(setting: Setting, w: World, m: Message)
    requires AnswersAgree(setting, w) && Answered(w, m)
    ensures Slot(setting.device, m.key) in w.sessions
  {
  }

  /** Any number of retries of one unchanged request, crashes and lost answers
      included, adds at most one session beyond those of messages that were already
      on their way, and an answered message has its session. */
  lemma RetriesCreateOneSession(setting: Setting, ws: seq<World>, steps: seq<Step>, request: Request)
    requires Run(setting, ws, steps) && Consistent(setting, ws[0]) && Retries(steps, request)
    ensures var (first, last) := (ws[0], ws[|steps|]);
      && (forall s | s in Added(first, last) ::
            (exists m :: Stale(first, m) && m.key == s.key)
              || (last.pending.Some? && s == Slot(setting.device, last.pending.value.key)))
      && ((forall m | Stale(first, m) :: Slot(setting.device, m.key) in first.sessions) ==> |Added(first, last)| <= 1)
      && (forall m | Answered(last, m) :: Slot(setting.device, m.key) in last.sessions)
  {
    var (first, last) := (ws[0], ws[|steps|]);
    assert OneMessage(first, last, request) && OnlyAdds(setting, first, last) by {
      RetryRun(setting, ws, steps, request, |steps|);
    }
    assert AnswersAgree(setting, last) by {
      RunKeeps(setting, ws, steps, |steps|);
    }
    forall s | s in Added(first, last)
      ensures (exists m :: Stale(first, m) && m.key == s.key)
              || (last.pending.Some? && s == Slot(setting.device, last.pending.value.key))
    {
      AddedSlot(setting, first, last, request, s);
    }
    if forall m | Stale(first, m) :: Slot(setting.device, m.key) in first.sessions {
      AddedWithoutStale(setting, first, last, request);
    }
    forall m | Answered(last, m) ensures Slot(setting.device, m.key) in last.sessions {
      AnsweredHasSession(setting, last, m);
    }
  }

  /** The same from the very beginning: one session, whatever happens. */
  lemma FirstRequestCreatesOneSession(setting: Setting, ws: seq<World>, steps: seq<Step>, request: Request)
    requires Run(setting, ws, steps) && Start(setting, ws[0]) && Retries(steps, request)
    ensures |Added(ws[0], ws[|steps|])| <= 1
    ensures forall m | Answered(ws[|steps|], m) :: Added(ws[0], ws[|steps|]) == {Slot(setting.device, m.key)}
  {
    RetriesCreateOneSession(setting, ws, steps, request);
    var added := Added(ws[0], ws[|steps|]);
    forall m | Answered(ws[|steps|], m) ensures added == {Slot(setting.device, m.key)} {
      assert Slot(setting.device, m.key) in added;
      OnlyElement(added, Slot(setting.device, m.key));
    }
  }

  lemma OnlyElement(s: set<Slot>, x: Slot)
    requires x in s && |s| <= 1
    ensures s == {x}
  {
    assert |s - {x}| == |s| - 1;
  }
}
