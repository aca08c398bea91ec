/** The offline write queue of the `useOfflineSync` hook: two durable FIFO
    queues (`offline_notas`, `offline_paletes`), the drain pass that replays
    them to the remote service, the re-entrancy flag that guards the pass, and
    the connectivity and forced-sync triggers that start it.

    The remote service is an oracle: a script of steps, one per submission,
    saying whether the create call succeeded and which event (a connectivity
    change or a press of the sync button) arrived while it was in flight. */
module OfflineSync {
  import opened Records
  import Js

  /** What reading and parsing a storage key yields: no value, a JSON array, or
      text that does not parse. A failed read behaves as `Corrupt` does. */
  datatype Slot<T> = Absent | Valid(items: seq<T>) | Corrupt

  datatype Key = NotasKey | PaletesKey

  datatype Record = NotaRecord(nota: Nota) | PaleteRecord(palete: Palete)

  /** Externally visible effects of a drain pass, in the order they happen. */
  datatype Effect = Submitted(rec: Record, accepted: bool) | Removed(key: Key)

  /** Something that can happen while a submission is awaited. */
  datatype Event = NetChange(isConnected: Js.Option<bool>) | ForcePressed

  /** The oracle's answer for one submission. */
  datatype Step = Step(accepted: bool, during: Js.Option<Event>)

  /** Beyond the end of the script a submission times out and nothing arrives. */
  function StepAt(script: seq<Step>, k: nat): Step
  {
    if k < |script| then script[k] else Step(false, Js.None)
  }

  /** `state.isConnected ?? false`. */
  function Connected(isConnected: Js.Option<bool>): bool
  {
    isConnected == Js.Some(true)
  }

  /** The value of `isOnline` after an event is handled. */
  function AfterEvent(online: bool, ev: Js.Option<Event>): bool
  {
    match ev
    case None => online
    case Some(NetChange(c)) => Connected(c)
    case Some(ForcePressed) => online
  }

  /** The value of `isOnline` after the events of the first `k` steps. */
  function OnlineAfter(online: bool, script: seq<Step>, k: nat): bool
  {
    if k == 0 then online else AfterEvent(OnlineAfter(online, script, k - 1), StepAt(script, k - 1).during)
  }

  /** The list accessors: the stored array, or `[]` when absent or unreadable. */
  function Listed<T>(slot: Slot<T>): seq<T>
  {
    if slot.Valid? then slot.items else []
  }

  /** The key after a save: read, append, write back. Unparsable data makes the
      save throw before writing; a failed write leaves the old value. */
  function Saved<T>(slot: Slot<T>, x: T, writeOk: bool): Slot<T>
  {
    match slot
    case Corrupt => Corrupt
    case Absent => if writeOk then Valid([x]) else Absent
    case Valid(xs) => if writeOk then Valid(xs + [x]) else slot
  }

  /** A sequence of saves, the i-th with write outcome `oks[i]`. */
  function SaveEach<T>(slot: Slot<T>, xs: seq<T>, oks: seq<bool>): Slot<T>
    requires |xs| == |oks|
    decreases |xs|
  {
    if xs == [] then slot else SaveEach(Saved(slot, xs[0], oks[0]), xs[1..], oks[1..])
  }

  /** The elements of `xs` whose write succeeded, in order. */
  function Kept<T>(xs: seq<T>, oks: seq<bool>): seq<T>
    requires |xs| == |oks|
  {
    if xs == [] then [] else (if oks[0] then [xs[0]] else []) + Kept(xs[1..], oks[1..])
  }

  /** Saves append at the end: the stored queue is the old one followed by every
      record whose write succeeded, in call order; nothing earlier changes. */
  lemma {:induction false} SavesAppendInOrder<T>(slot: Slot<T>, xs: seq<T>, oks: seq<bool>)
    requires |xs| == |oks|
    requires !slot.Corrupt?
    decreases |xs|
    ensures !SaveEach(slot, xs, oks).Corrupt?
    ensures Listed(SaveEach(slot, xs, oks)) == Listed(slot) + Kept(xs, oks)
  {
    if xs != [] {
      var x, ok := xs[0], oks[0];
      var next := Saved(slot, x, ok);
      SavedAppends(slot, x, ok);
      var xs', oks' := xs[1..], oks[1..];
      SavesAppendInOrder(next, xs', oks');
      calc {
        Listed(SaveEach(slot, xs, oks));
        Listed(SaveEach(next, xs', oks'));
        Listed(next) + Kept(xs', oks');
        (Listed(slot) + (if ok then [x] else [])) + Kept(xs', oks');
        Listed(slot) + ((if ok then [x] else []) + Kept(xs', oks'));
        Listed(slot) + Kept(xs, oks);
      }
    }
  }

  /** One save onto readable data. */
  lemma SavedAppends<T>(slot: Slot<T>, x: T, writeOk: bool)
    requires !slot.Corrupt?
    ensures !Saved(slot, x, writeOk).Corrupt?
    ensures Listed(Saved(slot, x, writeOk)) == Listed(slot) + (if writeOk then [x] else [])
  {
  }

  /** A save on corrupt data, and a failed write, change nothing: the record is dropped. */
  lemma SaveFailureDropsRecord<T>(slot: Slot<T>, x: T)
    ensures Saved(slot, x, false) == slot
    ensures Saved(Corrupt, x, true) == Corrupt
  {
  }

  datatype Count = Count(notas: nat, paletes: nat, total: nat)

  /** `getOfflineCount`: either key unreadable gives zeros. */
  function OfflineCount(notas: Slot<Nota>, paletes: Slot<Palete>): (c: Count)
    ensures c.total == c.notas + c.paletes
  {
    if notas.Corrupt? || paletes.Corrupt? then Count(0, 0, 0)
    else
      var n := |Listed(notas)|;
      var p := |Listed(paletes)|;
      Count(n, p, n + p)
  }

  /** A successful save of a Nota adds one to the pending counts, unless a key is unreadable. */
  lemma SaveCounts(notas: Slot<Nota>, paletes: Slot<Palete>, x: Nota, writeOk: bool)
    ensures var before := OfflineCount(notas, paletes);
            var after := OfflineCount(Saved(notas, x, writeOk), paletes);
            if writeOk && !notas.Corrupt? && !paletes.Corrupt? then
              after.notas == before.notas + 1 && after.paletes == before.paletes && after.total == before.total + 1
            else after == before
  {
  }

  function NotaRecords(ns: seq<Nota>): (r: seq<Record>)
    ensures |r| == |ns| && forall i :: 0 <= i < |ns| ==> r[i] == NotaRecord(ns[i])
  {
    seq(|ns|, i requires 0 <= i < |ns| => NotaRecord(ns[i]))
  }

  function PaleteRecords(ps: seq<Palete>): (r: seq<Record>)
    ensures |r| == |ps| && forall i :: 0 <= i < |ps| ==> r[i] == PaleteRecord(ps[i])
  {
    seq(|ps|, i requires 0 <= i < |ps| => PaleteRecord(ps[i]))
  }

  /** One submission per record, outcomes taken from the script from `offset` on. */
  function Attempts(recs: seq<Record>, script: seq<Step>, offset: nat): (r: seq<Effect>)
    ensures |r| == |recs|
    ensures forall i :: 0 <= i < |recs| ==> r[i] == Submitted(recs[i], StepAt(script, offset + i).accepted)
  {
    seq(|recs|, i requires 0 <= i < |recs| => Submitted(recs[i], StepAt(script, offset + i).accepted))
  }

  /** What a drain pass leaves in storage, its effects, and how many steps it used. */
  datatype PassResult = PassResult(notas: Slot<Nota>, paletes: Slot<Palete>, effects: seq<Effect>, consumed: nat)

  /** The drain pass of `syncOfflineData`: Notas, then Paletes. A kind whose key
      holds an array has every record submitted and the key removed, whatever the
      outcomes; unparsable Notas abort the pass before anything is submitted,
      unparsable Paletes abort it after the Notas are done. */
  function Pass(notas: Slot<Nota>, paletes: Slot<Palete>, script: seq<Step>): PassResult
  {
    if notas.Corrupt? then PassResult(Corrupt, paletes, [], 0)
    else
      var n := |Listed(notas)|;
      var notaEffects := if notas.Valid? then Attempts(NotaRecords(notas.items), script, 0) + [Removed(NotasKey)] else [];
      match paletes
      case Corrupt => PassResult(Absent, Corrupt, notaEffects, n)
      case Absent => PassResult(Absent, Absent, notaEffects, n)
      case Valid(ps) =>
        PassResult(Absent, Absent, notaEffects + Attempts(PaleteRecords(ps), script, n) + [Removed(PaletesKey)], n + |ps|)
  }

  /** The records submitted by a sequence of effects, in order. */
  function SubmittedRecords(effects: seq<Effect>): seq<Record>
  {
    if effects == [] then []
    else (if effects[0].Submitted? then [effects[0].rec] else []) + SubmittedRecords(effects[1..])
  }

  lemma {:induction false} SubmittedRecordsAppend(a: seq<Effect>, b: seq<Effect>)
    ensures SubmittedRecords(a + b) == SubmittedRecords(a) + SubmittedRecords(b)
  {
    if a == [] {
      assert a + b == b;
    } else {
      var h := if a[0].Submitted? then [a[0].rec] else [];
      assert (a + b)[0] == a[0];
      assert (a + b)[1..] == a[1..] + b;
      SubmittedRecordsAppend(a[1..], b);
      calc {
        SubmittedRecords(a + b);
        h + SubmittedRecords(a[1..] + b);
        h + (SubmittedRecords(a[1..]) + SubmittedRecords(b));
        (h + SubmittedRecords(a[1..])) + SubmittedRecords(b);
        SubmittedRecords(a) + SubmittedRecords(b);
      }
    }
  }

  lemma {:induction false} SubmittedRecordsOfAttempts(recs: seq<Record>, script: seq<Step>, offset: nat)
    ensures SubmittedRecords(Attempts(recs, script, offset)) == recs
  {
    if recs != [] {
      assert Attempts(recs, script, offset)[1..] == Attempts(recs[1..], script, offset + 1);
      SubmittedRecordsOfAttempts(recs[1..], script, offset + 1);
    }
  }

  /** Every stored record is submitted exactly once, in stored order, Notas first;
      a pass uses one script step per submission. */
  lemma EachRecordSubmittedOnceInOrder(notas: Slot<Nota>, paletes: Slot<Palete>, script: seq<Step>)
    ensures var r := Pass(notas, paletes, script);
            && SubmittedRecords(r.effects) ==
               (if notas.Corrupt? then []
                else NotaRecords(Listed(notas)) + (if paletes.Corrupt? then [] else PaleteRecords(Listed(paletes))))
            && r.consumed == |SubmittedRecords(r.effects)|
  {
    if !notas.Corrupt? {
      var ne := if notas.Valid? then Attempts(NotaRecords(notas.items), script, 0) + [Removed(NotasKey)] else [];
      if notas.Valid? {
        SubmittedRecordsAppend(Attempts(NotaRecords(notas.items), script, 0), [Removed(NotasKey)]);
        SubmittedRecordsOfAttempts(NotaRecords(notas.items), script, 0);
        assert SubmittedRecords([Removed(NotasKey)]) == [];
      }
      assert SubmittedRecords(ne) == NotaRecords(Listed(notas));
      if paletes.Valid? {
        var pa := Attempts(PaleteRecords(paletes.items), script, |Listed(notas)|);
        SubmittedRecordsAppend(ne + pa, [Removed(PaletesKey)]);
        SubmittedRecordsAppend(ne, pa);
        SubmittedRecordsOfAttempts(PaleteRecords(paletes.items), script, |Listed(notas)|);
        assert SubmittedRecords([Removed(PaletesKey)]) == [];
      }
    }
  }

  predicate NotaPhase(e: Effect)
  {
    (e.Submitted? && e.rec.NotaRecord?) || e == Removed(NotasKey)
  }

  predicate PaleteSubmission(e: Effect)
  {
    e.Submitted? && e.rec.PaleteRecord?
  }

  /** All Notas are submitted and their key removed before any Palete is submitted. */
  lemma NotasBeforePaletes(notas: Slot<Nota>, paletes: Slot<Palete>, script: seq<Step>)
    ensures var e := Pass(notas, paletes, script).effects;
            forall i, j :: 0 <= i < |e| && 0 <= j < |e| && NotaPhase(e[i]) && PaleteSubmission(e[j]) ==> i < j
  {
    var e := Pass(notas, paletes, script).effects;
    if !notas.Corrupt? && paletes.Valid? {
      var ne := if notas.Valid? then Attempts(NotaRecords(notas.items), script, 0) + [Removed(NotasKey)] else [];
      var rest := Attempts(PaleteRecords(paletes.items), script, |Listed(notas)|) + [Removed(PaletesKey)];
      assert e == ne + rest;
      assert forall i :: 0 <= i < |ne| ==> NotaPhase(ne[i]);
      assert forall i :: 0 <= i < |rest| ==> !NotaPhase(rest[i]);
      PhasesInOrder(ne, rest);
    } else if !notas.Corrupt? {
      assert forall j :: 0 <= j < |e| ==> !PaleteSubmission(e[j]);
    }
  }

  /** In `ne + rest`, with only Nota-phase effects in `ne` and none in `rest`,
      every Nota-phase effect precedes every Palete submission. */
  lemma PhasesInOrder(ne: seq<Effect>, rest: seq<Effect>)
    requires forall i :: 0 <= i < |ne| ==> NotaPhase(ne[i])
    requires forall i :: 0 <= i < |rest| ==> !NotaPhase(rest[i])
    ensures var e := ne + rest;
            forall i, j :: 0 <= i < |e| && 0 <= j < |e| && NotaPhase(e[i]) && PaleteSubmission(e[j]) ==> i < j
  {
    var e := ne + rest;
    forall i | 0 <= i < |e| ensures NotaPhase(e[i]) ==> i < |ne| {
      if i >= |ne| { assert e[i] == rest[i - |ne|]; }
    }
    forall j | 0 <= j < |e| ensures PaleteSubmission(e[j]) ==> |ne| <= j {
      if j < |ne| { assert e[j] == ne[j]; }
    }
  }

  /** A pass clears every key that held an array, whatever the submission outcomes
      (failed records are therefore not kept for a retry); unparsable Notas are left
      in place and stop the pass before any Palete is touched. */
  lemma PassClearsOrAborts(notas: Slot<Nota>, paletes: Slot<Palete>, script: seq<Step>)
    ensures var r := Pass(notas, paletes, script);
            && (notas.Corrupt? ==> r.notas == Corrupt && r.paletes == paletes && r.effects == [])
            && (!notas.Corrupt? ==> r.notas == Absent && r.paletes == (if paletes.Corrupt? then Corrupt else Absent))
            && (!notas.Corrupt? && !paletes.Corrupt? ==> OfflineCount(r.notas, r.paletes) == Count(0, 0, 0))
  {
  }

  /** A key holding `[]` is still removed; a second pass right after a first finds
      nothing to do and changes nothing. */
  lemma PassIdempotent(notas: Slot<Nota>, paletes: Slot<Palete>, script: seq<Step>, script2: seq<Step>)
    ensures Pass(Absent, Absent, script) == PassResult(Absent, Absent, [], 0)
    ensures Pass(Valid([]), Valid([]), script).effects == [Removed(NotasKey), Removed(PaletesKey)]
    ensures var r := Pass(notas, paletes, script);
            Pass(r.notas, r.paletes, script2) == PassResult(r.notas, r.paletes, [], 0)
  {
  }

  /** One instance of the hook: its view of the two storage keys, the online and
      syncing flags (`isSyncingRef` and `isSyncing` move together), and the trace
      of what its passes did. */
  class OfflineQueue {
    var notas: Slot<Nota>
    var paletes: Slot<Palete>
    var isOnline: bool
    var syncing: bool
    var trace: seq<Effect>

    /** Mounting the hook over whatever is already stored. */
    constructor (storedNotas: Slot<Nota>, storedPaletes: Slot<Palete>)
      ensures notas == storedNotas && paletes == storedPaletes
      ensures isOnline && !syncing && trace == []
    {
      notas := storedNotas;
      paletes := storedPaletes;
      isOnline := true;
      syncing := false;
      trace := [];
    }

    /** The state after a pass that started from the given storage and online flag. */
    ghost predicate PassDone(notas0: Slot<Nota>, paletes0: Slot<Palete>, trace0: seq<Effect>, online0: bool, script: seq<Step>)
      reads this
    {
      var r := Pass(notas0, paletes0, script);
      && notas == r.notas && paletes == r.paletes
      && trace == trace0 + r.effects
      && !syncing
      && isOnline == OnlineAfter(online0, script, r.consumed)
    }

    method SaveNotaOffline(nota: Nota, writeOk: bool)
      modifies this
      ensures notas == Saved(old(notas), nota, writeOk)
      ensures paletes == old(paletes) && trace == old(trace)
      ensures isOnline == old(isOnline) && syncing == old(syncing)
    {
      match notas
      case Corrupt =>
      case Absent => if writeOk { notas := Valid([nota]); }
      case Valid(ns) => if writeOk { notas := Valid(ns + [nota]); }
    }

    method SavePaleteOffline(palete: Palete, writeOk: bool)
      modifies this
      ensures paletes == Saved(old(paletes), palete, writeOk)
      ensures notas == old(notas) && trace == old(trace)
      ensures isOnline == old(isOnline) && syncing == old(syncing)
    {
      match paletes
      case Corrupt =>
      case Absent => if writeOk { paletes := Valid([palete]); }
      case Valid(ps) => if writeOk { paletes := Valid(ps + [palete]); }
    }

    /** `syncOfflineData`. A call while a pass is running returns at once and
        touches nothing; otherwise the flag is raised, one pass runs, and the
        flag is lowered on every exit. Events arriving during the pass reach the
        handlers, which find the flag raised and start no second pass. */
    method SyncOfflineData(script: seq<Step>) returns (ran: bool)
      modifies this
      decreases if syncing then 0 else 1, 0
      ensures ran == !old(syncing)
      ensures !ran ==> notas == old(notas) && paletes == old(paletes) && trace == old(trace)
                       && syncing && isOnline == old(isOnline)
      ensures ran ==> PassDone(old(notas), old(paletes), old(trace), old(isOnline), script)
    {
      if syncing {
        return false;
      }
      ran := true;
      syncing := true;
      ghost var trace0, online0 := trace, isOnline;
      if notas.Corrupt? {
        // JSON.parse throws: the outer catch logs, the finally lowers the flag.
        syncing := false;
        return;
      }
      var n := if notas.Valid? then |notas.items| else 0;
      if notas.Valid? {
        DrainNotas(script, online0);
      }
      ghost var notaEffects := Pass(old(notas), Absent, script).effects;
      assert trace == trace0 + notaEffects;
      assert isOnline == OnlineAfter(online0, script, n);
      if paletes.Corrupt? {
        syncing := false;
        return;
      }
      if paletes.Valid? {
        ghost var ps := paletes.items;
        DrainPaletes(script, n, online0);
        ghost var paleteEffects := Attempts(PaleteRecords(ps), script, n) + [Removed(PaletesKey)];
        assert trace == trace0 + notaEffects + paleteEffects;
        assert Pass(old(notas), old(paletes), script).effects == notaEffects + paleteEffects;
      }
      syncing := false;
    }

    /** Submit every stored Nota in order, then remove the key. */
    method DrainNotas(script: seq<Step>, ghost online0: bool)
      requires syncing && notas.Valid? && isOnline == online0
      modifies this
      decreases 0, 4
      ensures notas == Absent && paletes == old(paletes) && syncing
      ensures trace == old(trace) + Attempts(NotaRecords(old(notas).items), script, 0) + [Removed(NotasKey)]
      ensures isOnline == OnlineAfter(online0, script, |old(notas).items|)
    {
      var ns := notas.items;
      ghost var trace0 := trace;
      ghost var attempts := Attempts(NotaRecords(ns), script, 0);
      var i := 0;
      while i < |ns|
        invariant 0 <= i <= |ns|
        invariant notas == old(notas) && paletes == old(paletes) && syncing
        invariant trace == trace0 + attempts[..i]
        invariant isOnline == OnlineAfter(online0, script, i)
      {
        Submit(NotaRecord(ns[i]), script, i);
        assert attempts[..i + 1] == attempts[..i] + [attempts[i]];
        i := i + 1;
      }
      notas := Absent;
      trace := trace + [Removed(NotasKey)];
    }

    /** Submit every stored Palete in order, using the script from step `n` on, then remove the key. */
    method DrainPaletes(script: seq<Step>, n: nat, ghost online0: bool)
      requires syncing && paletes.Valid? && isOnline == OnlineAfter(online0, script, n)
      modifies this
      decreases 0, 4
      ensures paletes == Absent && notas == old(notas) && syncing
      ensures trace == old(trace) + Attempts(PaleteRecords(old(paletes).items), script, n) + [Removed(PaletesKey)]
      ensures isOnline == OnlineAfter(online0, script, n + |old(paletes).items|)
    {
      var ps := paletes.items;
      ghost var trace0 := trace;
      ghost var attempts := Attempts(PaleteRecords(ps), script, n);
      var j := 0;
      while j < |ps|
        invariant 0 <= j <= |ps|
        invariant notas == old(notas) && paletes == old(paletes) && syncing
        invariant trace == trace0 + attempts[..j]
        invariant isOnline == OnlineAfter(online0, script, n + j)
      {
        Submit(PaleteRecord(ps[j]), script, n + j);
        assert attempts[..j + 1] == attempts[..j] + [attempts[j]];
        j := j + 1;
      }
      paletes := Absent;
      trace := trace + [Removed(PaletesKey)];
    }

    /** One awaited create call inside a pass: the event of its step, if any, is
        handled while it is in flight, then its outcome is recorded. */
    method Submit(rec: Record, script: seq<Step>, k: nat)
      requires syncing
      modifies this
      decreases 0, 3
      ensures trace == old(trace) + [Submitted(rec, StepAt(script, k).accepted)]
      ensures notas == old(notas) && paletes == old(paletes) && syncing
      ensures isOnline == AfterEvent(old(isOnline), StepAt(script, k).during)
    {
      var step := StepAt(script, k);
      if step.during.Some? {
        Deliver(step.during.value);
      }
      trace := trace + [Submitted(rec, step.accepted)];
    }

    /** An event delivered while a pass is in flight. */
    method Deliver(ev: Event)
      requires syncing
      modifies this
      decreases 0, 2
      ensures notas == old(notas) && paletes == old(paletes) && trace == old(trace) && syncing
      ensures isOnline == AfterEvent(old(isOnline), Js.Some(ev))
    {
      match ev
      case NetChange(c) =>
        var started := OnNetInfo(c, []);
      case ForcePressed =>
        var started := ForceSync([]);
    }

    /** The NetInfo listener: record the new connectivity, and start a pass when
        connected and no pass is running. */
    method OnNetInfo(isConnected: Js.Option<bool>, script: seq<Step>) returns (ran: bool)
      modifies this
      decreases if syncing then 0 else 1, 1
      ensures ran == (Connected(isConnected) && !old(syncing))
      ensures !ran ==> notas == old(notas) && paletes == old(paletes) && trace == old(trace)
                       && syncing == old(syncing) && isOnline == Connected(isConnected)
      ensures ran ==> PassDone(old(notas), old(paletes), old(trace), true, script)
    {
      var connected := Connected(isConnected);
      isOnline := connected;
      if connected && !syncing {
        ran := SyncOfflineData(script);
      } else {
        ran := false;
      }
    }

    /** `forceSync`: a pass only when online and none is running. */
    method ForceSync(script: seq<Step>) returns (ran: bool)
      modifies this
      decreases if syncing then 0 else 1, 1
      ensures ran == (old(isOnline) && !old(syncing))
      ensures !ran ==> notas == old(notas) && paletes == old(paletes) && trace == old(trace)
                       && syncing == old(syncing) && isOnline == old(isOnline)
      ensures ran ==> PassDone(old(notas), old(paletes), old(trace), true, script)
    {
      if isOnline && !syncing {
        ran := SyncOfflineData(script);
      } else {
        ran := false;
      }
    }

    method GetOfflineCount() returns (c: Count)
      ensures c == OfflineCount(notas, paletes)
    {
      c := OfflineCount(notas, paletes);
    }

    method GetOfflineNotas() returns (ns: seq<Nota>)
      ensures ns == Listed(notas)
    {
      ns := if notas.Valid? then notas.items else [];
    }

    method GetOfflinePaletes() returns (ps: seq<Palete>)
      ensures ps == Listed(paletes)
    {
      ps := if paletes.Valid? then paletes.items else [];
    }
  }
}
