/** The sync status bar: its text and dot colour, chosen by the same
    priority order (offline, then syncing, then pending work), and the
    sync button that forces a pass. */
module SyncStatus {
  import Text
  import OfflineSync

  /** The branch the two if-chains take, in priority order. */
  datatype Branch = Offline | Syncing | Pending(total: nat) | Synced

  function BranchOf(isOnline: bool, isSyncing: bool, total: nat): (b: Branch)
    ensures b.Offline? <==> !isOnline
    ensures b.Syncing? <==> isOnline && isSyncing
    ensures b.Pending? <==> isOnline && !isSyncing && total > 0
    ensures b.Pending? ==> b.total == total
  {
    if !isOnline then Offline
    else if isSyncing then Syncing
    else if total > 0 then Pending(total)
    else Synced
  }

  /** `getStatusText`. */
  function StatusText(isOnline: bool, isSyncing: bool, total: nat): string
  {
    match BranchOf(isOnline, isSyncing, total)
    case Offline => "Offline"
    case Syncing => "Sincronizando..."
    case Pending(n) => Text.NatToString(n) + " item(s) pendente(s)"
    case Synced => "Sincronizado"
  }

  /** `getStatusColor`. */
  function StatusColor(isOnline: bool, isSyncing: bool, total: nat): string
  {
    match BranchOf(isOnline, isSyncing, total)
    case Offline => "#ff6b6b"
    case Syncing => "#4ecdc4"
    case Pending(_) => "#ffa726"
    case Synced => "#51cf66"
  }

  /** Offline wins over everything, and syncing over the pending count. */
  lemma StatusPriority(isSyncing: bool, total: nat, total2: nat)
    ensures StatusText(false, isSyncing, total) == "Offline"
    ensures StatusText(true, true, total) == "Sincronizando..."
    ensures StatusText(false, isSyncing, total) == StatusText(false, !isSyncing, total2)
  {
  }

  /** The pending text names the count: it starts with the count's digits, which read
      back as the count. */
  lemma PendingTextNamesCount(total: nat)
    requires total > 0
    ensures var t := StatusText(true, false, total);
            var d := Text.NatToString(total);
            && t[..|d|] == d && Text.ParseNat(t[..|d|]) == total
            && t[|d|..] == " item(s) pendente(s)"
  {
    Text.ParseNatToString(total);
  }

  /** Text and colour follow the same branch: each colour belongs to one branch, and
      two states with the same text have the same colour. */
  lemma {:induction false} ColourFollowsText(on1: bool, sy1: bool, t1: nat, on2: bool, sy2: bool, t2: nat)
    ensures StatusColor(on1, sy1, t1) == StatusColor(on2, sy2, t2) <==>
              BranchOf(on1, sy1, t1).Offline? == BranchOf(on2, sy2, t2).Offline?
              && BranchOf(on1, sy1, t1).Syncing? == BranchOf(on2, sy2, t2).Syncing?
              && BranchOf(on1, sy1, t1).Pending? == BranchOf(on2, sy2, t2).Pending?
    ensures StatusText(on1, sy1, t1) == StatusText(on2, sy2, t2) ==>
              StatusColor(on1, sy1, t1) == StatusColor(on2, sy2, t2)
  {
    var b1, b2 := BranchOf(on1, sy1, t1), BranchOf(on2, sy2, t2);
    var x1, x2 := StatusText(on1, sy1, t1), StatusText(on2, sy2, t2);
    if x1 == x2 {
      // A pending text starts with a digit, the other three do not.
      if b1.Pending? {
        assert Text.IsDigit(x1[0]);
      }
      if b2.Pending? {
        assert Text.IsDigit(x2[0]);
      }
      assert b1.Pending? == b2.Pending?;
      if !b1.Pending? {
        assert x1[0] == x2[0] && |x1| == |x2|;
      }
    }
  }

  /** The guard of `handleSyncPress`, which is also the condition under which the
      sync button is rendered. */
  predicate ShouldForceSync(isOnline: bool, isSyncing: bool, total: nat)
  {
    isOnline && !isSyncing && total > 0
  }

  /** The button is offered exactly when the status shows pending work. */
  lemma ForceSyncIffPending(isOnline: bool, isSyncing: bool, total: nat)
    ensures ShouldForceSync(isOnline, isSyncing, total) <==> BranchOf(isOnline, isSyncing, total).Pending?
    ensures ShouldForceSync(isOnline, isSyncing, total) <==> StatusColor(isOnline, isSyncing, total) == "#ffa726"
  {
  }

  /** `handleSyncPress` over the component's own queue instance, whose flags are the
      `isOnline` and `isSyncing` it renders; `total` is its last fetched count. */
  method HandleSyncPress(q: OfflineSync.OfflineQueue, total: nat, script: seq<OfflineSync.Step>) returns (forced: bool)
    modifies q
    ensures forced == ShouldForceSync(old(q.isOnline), old(q.syncing), total)
    ensures !forced ==> q.notas == old(q.notas) && q.paletes == old(q.paletes) && q.trace == old(q.trace)
                        && q.isOnline == old(q.isOnline) && q.syncing == old(q.syncing)
    ensures forced ==> q.PassDone(old(q.notas), old(q.paletes), old(q.trace), true, script)
  {
    if q.isOnline && !q.syncing && total > 0 {
      forced := q.ForceSync(script);
    } else {
      forced := false;
    }
  }
}
