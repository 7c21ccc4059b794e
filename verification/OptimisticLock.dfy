/**
 Optimistic locking of documents by `updated_at`: sessions read a document, edit their copy and
 replace the stored one under the filter {id, updated_at as read}. The stamp is taken before
 the replace is sent, and the store keeps it to the millisecond.
 */
module OptimisticLock {
  import opened Common

  /** A stored document: its version stamp, who wrote it, and everything else. */
  datatype Doc = Doc(updated: Time, user: string, body: nat)

  /** A stored version and the stored version its writer had in hand, if any. */
  datatype Version = Version(doc: Doc, based: Option<Doc>)

  /** The caller's copy: a zero update time is None. */
  datatype Copy = Copy(updated: Option<Time>, user: string, body: nat)

  datatype Reply = NoReply | Done | Conflict | NotFound | Duplicate

  datatype Pc =
    | Idle
    | Inserting(doc: Doc)
    | Replacing(original: Option<Time>, doc: Doc)
    | Counting

  /** `basis` is the stored version the copy stands for: none once an update of it has failed. */
  datatype Client = Client(id: string, copy: Copy, basis: Option<Doc>, pc: Pc, reply: Reply)

  /** `history` keeps, per id, every version ever stored. */
  datatype Sys = Sys(now: Time, store: map<string, Doc>, history: map<string, seq<Version>>, clients: map<nat, Client>)

  const INIT := Sys(0, map[], map[], map[])

  datatype Event =
    | Tick(d: Time)
    | Remove(id: string)
    | Build(c: nat, id: string, body: nat)
    | Get(c: nat, id: string)
    | Edit(c: nat, body: nat)
    | StampNew(c: nat, user: string)
    | Stamp(c: nat, user: string)
    | Execute(c: nat)
    | Count(c: nat)

  /** The stamped copy, as the driver encodes it. */
  function Encoded(s: Sys, cl: Client, user: string): Doc {
    Doc(Trunc(s.now), user, cl.copy.body)
  }

  predicate Hits(s: Sys, cl: Client) {
    && cl.pc.Replacing? && cl.id in s.store
    && (cl.pc.original.Some? ==> s.store[cl.id].updated == Trunc(cl.pc.original.value))
  }

  /** The replace matched but changed nothing. */
  predicate Unmodified(s: Sys, cl: Client) {
    Hits(s, cl) && cl.pc.original.Some? && s.store[cl.id] == cl.pc.doc
  }

  predicate Writes(s: Sys, cl: Client) {
    (cl.pc.Inserting? && cl.id !in s.store) || (Hits(s, cl) && !Unmodified(s, cl))
  }

  function Failed(cl: Client, reply: Reply): Client {
    cl.(basis := None, pc := Idle, reply := reply)
  }

  function ClientAfter(s: Sys, cl: Client, e: Event): Client {
    match (e, cl.pc)
    case (Edit(_, body), Idle) => cl.(copy := cl.copy.(body := body))
    case (StampNew(_, user), Idle) =>
      cl.(copy := cl.copy.(updated := Some(s.now), user := user), basis := None, pc := Inserting(Encoded(s, cl, user)))
    case (Stamp(_, user), Idle) =>
      cl.(copy := cl.copy.(updated := Some(s.now), user := user),
          pc := Replacing(cl.copy.updated, Encoded(s, cl, user)))
    case (Execute(_), Inserting(doc)) =>
      if Writes(s, cl) then cl.(basis := Some(doc), pc := Idle, reply := Done) else Failed(cl, Duplicate)
    case (Execute(_), Replacing(_, doc)) =>
      if Writes(s, cl) then cl.(basis := Some(doc), pc := Idle, reply := Done)
      else if Hits(s, cl) then Failed(cl, Conflict)
      else cl.(pc := Counting)
    case (Count(_), Counting) => Failed(cl, if cl.id in s.store then Conflict else NotFound)
    case _ => cl
  }

  function Versions(s: Sys, id: string): seq<Version> {
    if id in s.history then s.history[id] else []
  }

  function ClientStep(s: Sys, c: nat, cl: Client, e: Event): Sys {
    var t := s.(clients := s.clients[c := ClientAfter(s, cl, e)]);
    if e.Execute? && Writes(s, cl) then
      t.(store := s.store[cl.id := cl.pc.doc],
         history := s.history[cl.id := Versions(s, cl.id) + [Version(cl.pc.doc, cl.basis)]])
    else t
  }

  predicate Free(s: Sys, c: nat) {
    c in s.clients ==> s.clients[c].pc.Idle?
  }

  function Next(s: Sys, e: Event): Sys {
    match e
    case Tick(d) => s.(now := s.now + d)
    case Remove(id) => s.(store := s.store - {id})
    case Build(c, id, body) =>
      if Free(s, c) then s.(clients := s.clients[c := Client(id, Copy(None, "", body), None, Idle, NoReply)]) else s
    case Get(c, id) =>
      if Free(s, c) && id in s.store then
        var doc := s.store[id];
        s.(clients := s.clients[c := Client(id, Copy(Some(doc.updated), doc.user, doc.body), Some(doc), Idle, NoReply)])
      else s
    case _ => if e.c in s.clients then ClientStep(s, e.c, s.clients[e.c], e) else s
  }

  function Run(s: Sys, evs: seq<Event>): Sys
    decreases |evs|
  {
    if evs == [] then s else Next(Run(s, evs[..|evs| - 1]), evs[|evs| - 1])
  }

  function Actor(e: Event): Option<nat> {
    if e.Tick? || e.Remove? then None else Some(e.c)
  }

  /**
   What a session must see to before it calls: it updates a copy that stands for a stored version,
   at a stamp later than that version; and it creates no id anew.
   */
  predicate Careful(s: Sys, e: Event) {
    && (e.Stamp? && e.c in s.clients && s.clients[e.c].pc.Idle? ==> MayUpdate(s, s.clients[e.c]))
    && (e.Execute? && e.c in s.clients && s.clients[e.c].pc.Inserting? ==> MayCreate(s, s.clients[e.c].id))
  }

  predicate MayUpdate(s: Sys, cl: Client) {
    cl.basis.Some? && cl.copy.updated.Some? && Trunc(cl.copy.updated.value) < Trunc(s.now)
  }

  predicate MayCreate(s: Sys, id: string) {
    id in s.history ==> id in s.store
  }

  predicate CarefulRun(evs: seq<Event>)
    decreases |evs|
  {
    evs == [] || (CarefulRun(evs[..|evs| - 1]) && Careful(Run(INIT, evs[..|evs| - 1]), evs[|evs| - 1]))
  }

  /** Versions only grow. */
  predicate Increasing(h: seq<Version>) {
    forall i, j :: 0 <= i < j < |h| ==> h[i].doc.updated < h[j].doc.updated
  }

  /** Every version was made from the one stored before it. */
  predicate Chained(h: seq<Version>) {
    forall i :: 0 < i < |h| ==> h[i].based == Some(h[i - 1].doc)
  }

  predicate WholeMillis(h: seq<Version>) {
    forall i :: 0 <= i < |h| ==> h[i].doc.updated % MS == 0
  }

  predicate Stored(h: seq<Version>, doc: Doc) {
    exists i :: 0 <= i < |h| && h[i].doc == doc
  }

  predicate HistoryOk(s: Sys, id: string) {
    && Increasing(Versions(s, id)) && Chained(Versions(s, id)) && WholeMillis(Versions(s, id))
    && (id in s.store ==> Versions(s, id) != [] && Versions(s, id)[|Versions(s, id)| - 1].doc == s.store[id])
  }

  /** The copy's stamp is the document's, to the millisecond. */
  predicate Stamps(copy: Copy, doc: Doc) {
    copy.updated.Some? && Trunc(copy.updated.value) == doc.updated
  }

  predicate ClientOk(s: Sys, cl: Client) {
    && (cl.basis.Some? ==> Stored(Versions(s, cl.id), cl.basis.value))
    && (cl.basis.Some? && cl.pc.Idle? ==> Stamps(cl.copy, cl.basis.value))
    && (cl.pc.Inserting? || cl.pc.Replacing? ==> Stamps(cl.copy, cl.pc.doc))
    && (cl.pc.Replacing? ==> cl.basis.Some? && cl.pc.original.Some?)
    && (cl.pc.Replacing? ==> Trunc(cl.pc.original.value) == cl.basis.value.updated < cl.pc.doc.updated)
    && (cl.pc.Counting? ==> cl.basis.Some?)
    && (cl.pc.Counting? && cl.id in s.store ==> cl.basis.value.updated < s.store[cl.id].updated)
  }

  predicate Histories(s: Sys) {
    s.store.Keys <= s.history.Keys && forall id :: id in s.history ==> HistoryOk(s, id)
  }

  predicate Inv(s: Sys) {
    && Histories(s)
    && (forall c :: c in s.clients ==> ClientOk(s, s.clients[c]))
  }

  /** With growing versions, the stamp tells stored versions apart, and the stored one is the latest. */
  lemma StampDecides(s: Sys, id: string, doc: Doc)
    requires HistoryOk(s, id) && id in s.store && Stored(Versions(s, id), doc)
    ensures doc.updated <= s.store[id].updated
    ensures doc.updated == s.store[id].updated ==> doc == s.store[id]
  {
  }

  /** In a careful session the replace goes through exactly if the version read is still the stored one. */
  lemma WritesIff(s: Sys, cl: Client)
    requires ClientOk(s, cl) && cl.pc.Replacing? && (cl.id in s.store ==> HistoryOk(s, cl.id))
    ensures Writes(s, cl) <==> cl.id in s.store && s.store[cl.id] == cl.basis.value
    ensures Hits(s, cl) ==> Writes(s, cl)
  {
    if cl.id in s.store {
      StampDecides(s, cl.id, cl.basis.value);
    }
  }

  lemma ExtendHistory(h: seq<Version>, v: Version)
    requires Increasing(h) && Chained(h) && WholeMillis(h) && v.doc.updated % MS == 0
    requires h != [] ==> v.based == Some(h[|h| - 1].doc) && h[|h| - 1].doc.updated < v.doc.updated
    ensures Increasing(h + [v]) && Chained(h + [v]) && WholeMillis(h + [v])
  {
  }

  lemma HistoryStep(s: Sys, c: nat)
    requires Inv(s) && c in s.clients && Writes(s, s.clients[c]) && Careful(s, Execute(c))
    ensures Histories(Next(s, Execute(c)))
  {
    var cl, t := s.clients[c], Next(s, Execute(c));
    assert ClientOk(s, cl);
    if cl.pc.Replacing? {
      WritesIff(s, cl);
    }
    ExtendHistory(Versions(s, cl.id), Version(cl.pc.doc, cl.basis));
    forall id | id in t.history ensures HistoryOk(t, id) {
      if id != cl.id {
        assert Versions(t, id) == Versions(s, id);
      }
    }
  }

  /** What any step does to a client that does not take it. */
  lemma BystanderStep(s: Sys, e: Event, cl: Client)
    requires Inv(s) && Careful(s, e) && ClientOk(s, cl)
    ensures ClientOk(Next(s, e), cl)
  {
    var t := Next(s, e);
    if e.Execute? && e.c in s.clients && Writes(s, s.clients[e.c]) && s.clients[e.c].id == cl.id {
      var actor := s.clients[e.c];
      assert ClientOk(s, actor);
      if cl.basis.Some? {
        var i :| 0 <= i < |Versions(s, cl.id)| && Versions(s, cl.id)[i].doc == cl.basis.value;
        assert Versions(t, cl.id)[i].doc == cl.basis.value;
        assert actor.pc.Replacing?;
        WritesIff(s, actor);
        StampDecides(s, cl.id, cl.basis.value);
      }
    } else {
      assert Versions(t, cl.id) == Versions(s, cl.id);
    }
  }

  lemma ExecuteStep(s: Sys, c: nat)
    requires Inv(s) && c in s.clients
    ensures ClientOk(Next(s, Execute(c)), Next(s, Execute(c)).clients[c])
  {
    var cl, t := s.clients[c], Next(s, Execute(c));
    assert ClientOk(s, cl);
    if Writes(s, cl) {
      var h := Versions(t, cl.id);
      assert h[|h| - 1].doc == cl.pc.doc;
    } else if cl.pc.Replacing? {
      WritesIff(s, cl);
      if cl.id in s.store {
        StampDecides(s, cl.id, cl.basis.value);
      }
    }
  }

  lemma ActorStep(s: Sys, e: Event)
    requires Inv(s) && Careful(s, e) && Actor(e).Some? && e.c in Next(s, e).clients
    ensures ClientOk(Next(s, e), Next(s, e).clients[e.c])
  {
    if e.Execute? {
      ExecuteStep(s, e.c);
    } else if e.Get? && Free(s, e.c) && e.id in s.store {
      assert Stored(Versions(s, e.id), s.store[e.id]);
    } else if e.c in s.clients {
      assert ClientOk(s, s.clients[e.c]);
    }
  }

  lemma NothingStored(s: Sys, e: Event)
    requires !(e.Execute? && e.c in s.clients && Writes(s, s.clients[e.c]))
    ensures Next(s, e).history == s.history
    ensures Next(s, e).store == s.store || (e.Remove? && Next(s, e).store == s.store - {e.id})
  {
  }

  lemma HistoriesKept(s: Sys, e: Event)
    requires Histories(s) && !(e.Execute? && e.c in s.clients && Writes(s, s.clients[e.c]))
    ensures Histories(Next(s, e))
  {
    var t := Next(s, e);
    NothingStored(s, e);
    forall id | id in t.history ensures HistoryOk(t, id) {
      assert HistoryOk(s, id);
    }
  }

  lemma InvStep(s: Sys, e: Event)
    requires Inv(s) && Careful(s, e)
    ensures Inv(Next(s, e))
  {
    var t := Next(s, e);
    if e.Execute? && e.c in s.clients && Writes(s, s.clients[e.c]) {
      HistoryStep(s, e.c);
    } else {
      HistoriesKept(s, e);
    }
    forall c | c in t.clients ensures ClientOk(t, t.clients[c]) {
      if Actor(e) == Some(c) {
        ActorStep(s, e);
      } else {
        OthersUntouched(s, e, c);
        BystanderStep(s, e, s.clients[c]);
      }
    }
  }

  lemma {:induction false} InvRun(evs: seq<Event>)
    requires CarefulRun(evs)
    ensures Inv(Run(INIT, evs))
    decreases |evs|
  {
    if evs != [] {
      InvRun(evs[..|evs| - 1]);
      InvStep(Run(INIT, evs[..|evs| - 1]), evs[|evs| - 1]);
    }
  }

  /**
   No lost update: in every run of careful sessions the stored versions of a document strictly
   increase, and each one replaced exactly the version its writer had read.
   */
  lemma NoLostUpdate(evs: seq<Event>, id: string)
    requires CarefulRun(evs)
    ensures Increasing(Versions(Run(INIT, evs), id))
    ensures Chained(Versions(Run(INIT, evs), id))
  {
    InvRun(evs);
  }

  lemma ReplaceMeans(s: Sys, c: nat)
    requires c in s.clients && s.clients[c].pc.Replacing? && (Hits(s, s.clients[c]) ==> Writes(s, s.clients[c]))
    ensures var cl, t := s.clients[c], Next(s, Execute(c));
            && c in t.clients && (t.clients[c].pc.Idle? <==> Writes(s, cl))
            && t.clients[c].reply == (if Writes(s, cl) then Done else cl.reply)
            && t.store == (if Writes(s, cl) then s.store[cl.id := cl.pc.doc] else s.store)
  {
  }

  /** An update is accepted exactly if the version its session read is still stored; else the store is left alone. */
  lemma AcceptedIffCurrent(evs: seq<Event>, c: nat)
    requires CarefulRun(evs) && c in Run(INIT, evs).clients && Run(INIT, evs).clients[c].pc.Replacing?
    ensures var s := Run(INIT, evs); var cl, t := s.clients[c], Next(s, Execute(c));
            && (t.clients[c].pc.Idle? <==> cl.id in s.store && Some(s.store[cl.id]) == cl.basis)
            && t.clients[c].reply == (if t.clients[c].pc.Idle? then Done else cl.reply)
            && t.store == (if t.clients[c].pc.Idle? then s.store[cl.id := cl.pc.doc] else s.store)
  {
    InvRun(evs);
    var s := Run(INIT, evs);
    assert ClientOk(s, s.clients[c]);
    WritesIff(s, s.clients[c]);
    ReplaceMeans(s, c);
  }

  /**
   "Modified by other" is said exactly if a strictly later version than the one read is stored;
   otherwise the document is gone.
   */
  lemma ConflictTellsTruth(evs: seq<Event>, c: nat)
    requires CarefulRun(evs) && c in Run(INIT, evs).clients && Run(INIT, evs).clients[c].pc.Counting?
    ensures var s := Run(INIT, evs); var cl, t := s.clients[c], Next(s, Count(c));
            && cl.basis.Some? && t.clients[c].reply in {Conflict, NotFound}
            && (t.clients[c].reply == Conflict <==> cl.id in s.store && cl.basis.value.updated < s.store[cl.id].updated)
            && (t.clients[c].reply == NotFound <==> cl.id !in s.store)
  {
    InvRun(evs);
    var s := Run(INIT, evs);
    assert ClientOk(s, s.clients[c]);
  }

  // Both cares are needed.

  /**
   Of two sessions about to replace the version both read, the second passes after the first
   exactly if the first one's stamp fell into the millisecond of that version.
   */
  lemma SecondPassesIff(s: Sys, a: nat, b: nat)
    requires a != b && a in s.clients && b in s.clients && s.clients[a].id == s.clients[b].id
    requires Writes(s, s.clients[a]) && s.clients[a].pc.Replacing?
    requires Writes(s, s.clients[b]) && s.clients[b].pc.Replacing?
    requires s.clients[b].pc.original.Some? && s.clients[a].pc.doc != s.clients[b].pc.doc
    ensures var t := Next(s, Execute(a));
            && b in t.clients && t.clients[b] == s.clients[b]
            && (Writes(t, t.clients[b]) <==> s.clients[a].pc.doc.updated == s.store[s.clients[b].id].updated)
  {
    OthersUntouched(s, Execute(a), b);
    ReplaceMeans(s, a);
  }

  /** A copy that was refused, or whose update failed, and that carries a stamp of its own. */
  predicate Orphaned(cl: Client) {
    cl.pc.Idle? && cl.basis.None? && cl.copy.updated.Some?
  }

  /**
   Updating such a copy again without reading, after any careful run: the replace passes exactly
   if the copy's stamp fell into the millisecond of the stored version and the documents differ,
   and that is exactly when the chain of versions breaks.
   */
  lemma BlindRetryPassesIff(evs: seq<Event>, c: nat, user: string)
    requires CarefulRun(evs) && c in Run(INIT, evs).clients && Orphaned(Run(INIT, evs).clients[c])
    ensures var s := Run(INIT, evs); var cl := s.clients[c]; var t := Next(Next(s, Stamp(c, user)), Execute(c));
            var passes := cl.id in s.store && s.store[cl.id].updated == Trunc(cl.copy.updated.value)
                          && s.store[cl.id] != Encoded(s, cl, user);
            && c in t.clients && (t.clients[c].basis.Some? <==> passes)
            && (Chained(Versions(t, cl.id)) <==> !passes)
            && (!passes ==> t.store == s.store)
  {
    InvRun(evs);
    var s := Run(INIT, evs);
    var sent := Next(s, Stamp(c, user));
    StampStep(s, c, user);
    OrphanWrites(sent, c);
  }

  lemma StampStep(s: Sys, c: nat, user: string)
    requires c in s.clients && Orphaned(s.clients[c])
    ensures var t, cl := Next(s, Stamp(c, user)), s.clients[c];
            && t == s.(clients := t.clients) && c in t.clients && t.clients[c].id == cl.id && t.clients[c].basis.None?
            && t.clients[c].pc == Replacing(cl.copy.updated, Encoded(s, cl, user))
  {
  }

  lemma OrphanWrites(s: Sys, c: nat)
    requires c in s.clients && s.clients[c].pc.Replacing? && s.clients[c].pc.original.Some? && s.clients[c].basis.None?
    requires Chained(Versions(s, s.clients[c].id))
    requires s.clients[c].id in s.store ==> Versions(s, s.clients[c].id) != []
    ensures var t, cl := Next(s, Execute(c)), s.clients[c];
            && c in t.clients && (t.clients[c].basis.Some? <==> Writes(s, cl))
            && (Chained(Versions(t, cl.id)) <==> !Writes(s, cl)) && (!Writes(s, cl) ==> t.store == s.store)
  {
    var t, cl := Next(s, Execute(c)), s.clients[c];
    if Writes(s, cl) {
      var h := Versions(s, cl.id);
      assert Versions(t, cl.id) == h + [Version(cl.pc.doc, None)];
      assert Versions(t, cl.id)[|h|].based != Some(Versions(t, cl.id)[|h| - 1].doc);
    }
  }

  ghost predicate Reachable(s: Sys) {
    exists evs :: Run(INIT, evs) == s
  }

  lemma ReachNext(s: Sys, e: Event)
    requires Reachable(s)
    ensures Reachable(Next(s, e))
  {
    var evs :| Run(INIT, evs) == s;
    assert (evs + [e])[..|evs|] == evs;
    assert Run(INIT, evs + [e]) == Next(s, e);
  }

  lemma ReachClient(s: Sys, c: nat, e: Event)
    requires Reachable(s) && c in s.clients && Actor(e) == Some(c) && !e.Build? && !e.Get?
    ensures Reachable(ClientStep(s, c, s.clients[c], e))
  {
    ReachNext(s, e);
  }

  function First(): Doc { Doc(0, "a", 1) }

  /** The document as stored first, and the two sessions 0 and 1. */
  function Both(now: Time, left: Client, right: Client): Sys {
    Sys(now, map["x" := First()], map["x" := [Version(First(), None)]], map[0 := left, 1 := right])
  }

  function Reader(): Client {
    Client("x", Copy(Some(0), "a", 1), Some(First()), Idle, NoReply)
  }

  function Sender(now: Time, user: string, body: nat): Client {
    Client("x", Copy(Some(now), user, body), Some(First()), Replacing(Some(0), Doc(Trunc(now), user, body)), NoReply)
  }

  function Creator(copy: Copy, pc: Pc): Sys {
    Sys(0, map[], map[], map[0 := Client("x", copy, None, pc, NoReply)])
  }

  lemma Creating()
    ensures Reachable(Creator(Copy(Some(0), "a", 1), Inserting(First())))
  {
    assert Run(INIT, []) == INIT;
    ReachNext(INIT, Build(0, "x", 1));
    var s := Creator(Copy(None, "", 1), Idle);
    assert Next(INIT, Build(0, "x", 1)) == s;
    ReachClient(s, 0, StampNew(0, "a"));
    assert ClientStep(s, 0, s.clients[0], StampNew(0, "a")) == Creator(Copy(Some(0), "a", 1), Inserting(First()));
  }

  lemma OneWriter()
    ensures var writer := Reader().(reply := Done);
            Reachable(Sys(0, map["x" := First()], map["x" := [Version(First(), None)]], map[0 := writer]))
  {
    Creating();
    var s := Creator(Copy(Some(0), "a", 1), Inserting(First()));
    ReachClient(s, 0, Execute(0));
    assert Versions(s, "x") + [Version(First(), None)] == [Version(First(), None)];
    assert ClientStep(s, 0, s.clients[0], Execute(0)) ==
           Sys(0, map["x" := First()], map["x" := [Version(First(), None)]], map[0 := Reader().(reply := Done)]);
  }

  /** Two sessions that read one version. */
  lemma TwoReaders(d: Time)
    ensures Reachable(Both(d, Reader(), Reader()))
  {
    OneWriter();
    var s := Sys(0, map["x" := First()], map["x" := [Version(First(), None)]], map[0 := Reader().(reply := Done)]);
    ReachNext(s, Get(0, "x"));
    var t := s.(clients := map[0 := Reader()]);
    assert Next(s, Get(0, "x")) == t;
    ReachNext(t, Get(1, "x"));
    assert Next(t, Get(1, "x")) == Both(0, Reader(), Reader());
    ReachNext(Both(0, Reader(), Reader()), Tick(d));
  }

  /** The two sessions edit and stamp at one moment. */
  lemma TwoSenders(d: Time)
    ensures Reachable(Both(d, Sender(d, "l", 2), Sender(d, "r", 3)))
  {
    TwoReaders(d);
    var edited := Reader().(copy := Copy(Some(0), "a", 2));
    ReachClient(Both(d, Reader(), Reader()), 0, Edit(0, 2));
    assert ClientStep(Both(d, Reader(), Reader()), 0, Reader(), Edit(0, 2)) == Both(d, edited, Reader());
    ReachClient(Both(d, edited, Reader()), 0, Stamp(0, "l"));
    assert ClientStep(Both(d, edited, Reader()), 0, edited, Stamp(0, "l")) == Both(d, Sender(d, "l", 2), Reader());
    SecondSender(d);
  }

  lemma SecondSender(d: Time)
    requires Reachable(Both(d, Sender(d, "l", 2), Reader()))
    ensures Reachable(Both(d, Sender(d, "l", 2), Sender(d, "r", 3)))
  {
    var left, edited := Sender(d, "l", 2), Reader().(copy := Copy(Some(0), "a", 3));
    ReachClient(Both(d, left, Reader()), 1, Edit(1, 3));
    assert ClientStep(Both(d, left, Reader()), 1, Reader(), Edit(1, 3)) == Both(d, left, edited);
    ReachClient(Both(d, left, edited), 1, Stamp(1, "r"));
    assert ClientStep(Both(d, left, edited), 1, edited, Stamp(1, "r")) == Both(d, left, Sender(d, "r", 3));
  }

  /** The first session's update is stored; the second one's is still to come. */
  lemma LeftDone(d: Time) returns (s: Sys)
    ensures Reachable(s) && s.now == d && 0 in s.clients && 1 in s.clients
    ensures s.clients[0].reply == Done && s.clients[1] == Sender(d, "r", 3)
    ensures s.store == map["x" := Doc(Trunc(d), "l", 2)]
    ensures "x" in s.history
    ensures s.history["x"] == [Version(First(), None), Version(Doc(Trunc(d), "l", 2), Some(First()))]
  {
    TwoSenders(d);
    var t := Both(d, Sender(d, "l", 2), Sender(d, "r", 3));
    ReachClient(t, 0, Execute(0));
    s := ClientStep(t, 0, t.clients[0], Execute(0));
    assert s.history["x"] == [Version(First(), None)] + [Version(Doc(Trunc(d), "l", 2), Some(First()))];
  }

  /** If the stamp falls in the millisecond of the version read, both sessions succeed and the first update is lost. */
  lemma SameMillisecondLosesUpdate()
    ensures exists s :: Reachable(s) && "x" in s.history && !Chained(s.history["x"])
                        && 0 in s.clients && 1 in s.clients && s.clients[0].reply == s.clients[1].reply == Done
  {
    var s := LeftDone(0);
    ReachClient(s, 1, Execute(1));
    var t := ClientStep(s, 1, s.clients[1], Execute(1));
    assert t.history["x"][2].based == Some(First()) && t.history["x"][1].doc == Doc(0, "l", 2);
  }

  /** A failed update leaves its stamp in the caller's copy. */
  lemma RightRefused() returns (s: Sys)
    ensures Reachable(s) && s.now == MS && 1 in s.clients
    ensures s.clients[1] == Client("x", Copy(Some(MS), "r", 3), None, Idle, Conflict)
    ensures s.store == map["x" := Doc(MS, "l", 2)]
    ensures "x" in s.history && s.history["x"] == [Version(First(), None), Version(Doc(MS, "l", 2), Some(First()))]
  {
    var t := LeftDone(MS);
    ReachClient(t, 1, Execute(1));
    var u := ClientStep(t, 1, t.clients[1], Execute(1));
    assert u.clients[1].pc == Counting;
    ReachClient(u, 1, Count(1));
    s := ClientStep(u, 1, u.clients[1], Count(1));
  }

  /**
   Updating the refused copy again without reading can pass the filter and overwrite the very
   version that caused the refusal, though every stamp was later than the one in the copy.
   */
  lemma BlindRetryLosesUpdate()
    ensures exists s :: Reachable(s) && "x" in s.history && Increasing(s.history["x"]) && !Chained(s.history["x"])
  {
    var s := RightRefused();
    ReachNext(s, Tick(MS));
    var t := s.(now := 2 * MS);
    ReachClient(t, 1, Stamp(1, "r"));
    var u := ClientStep(t, 1, t.clients[1], Stamp(1, "r"));
    assert u.clients[1].pc == Replacing(Some(MS), Doc(2 * MS, "r", 3));
    ReachClient(u, 1, Execute(1));
    var v := ClientStep(u, 1, u.clients[1], Execute(1));
    var h := v.history["x"];
    assert h == [Version(First(), None), Version(Doc(MS, "l", 2), Some(First())), Version(Doc(2 * MS, "r", 3), None)];
    assert Increasing(h) && h[2].based != Some(h[2 - 1].doc);
  }

  lemma OthersUntouched(s: Sys, e: Event, me: nat)
    requires Actor(e) != Some(me)
    ensures me in Next(s, e).clients <==> me in s.clients
    ensures me in s.clients ==> Next(s, e).clients[me] == s.clients[me]
  {
  }
}
