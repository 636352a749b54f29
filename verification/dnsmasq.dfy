/** The dnsmasq integration helper (package/failsafe-dns-proxy/files/usr/sbin/
    failsafe-dns-proxy-dnsmasq): a backup, apply, verify and roll back
    transaction over the dhcp configuration, the backup file and the marker
    file, in which every external command may fail. A checksum stands for the
    text it was taken of. */
module Dnsmasq {
  import opened Wrappers

  const VERIFY_ATTEMPTS := 20

  /** The checksums the marker file records. */
  datatype Marker = Marker(backup: string, integration: string)

  /** How the commands of restore_dnsmasq turn out. A failed import leaves
      whatever text `junk`. */
  datatype RestoreRun = RestoreRun(revertOk: bool, importOk: bool, junk: string, commitOk: bool, restartOk: bool,
                                   lookups: seq<bool>)

  /** How the commands of enable_integration turn out. A batch that works leaves
      `integrated` committed; one that fails may have got anywhere. */
  datatype EnableRun = EnableRun(
    dryRunOk: bool, exportOk: bool,
    batchOk: bool, integrated: string, junkLive: string, junkSaved: string,
    restartOk: bool, lookups: seq<bool>, secondExportOk: bool, restore: RestoreRun)
  {
    /** Import and commit of the rollback work. */
    predicate RollsBack() {
      restore.importOk && restore.commitOk
    }

    /** The dry run and the backup work. */
    predicate Begins() {
      dryRunOk && exportOk
    }
  }

  datatype DisableRun = DisableRun(exportOk: bool, restore: RestoreRun)

  ghost predicate Verifies(lookups: seq<bool>) {
    exists i :: 0 <= i < |lookups| && i < 20 && lookups[i]
  }

  method VerifyDnsmasq(lookups: seq<bool>) returns (ok: bool)
    requires |lookups| >= 20
    ensures ok <==> Verifies(lookups)
  {
    var attempts := 0;
    while attempts < VERIFY_ATTEMPTS
      invariant 0 <= attempts <= VERIFY_ATTEMPTS
      invariant forall i | 0 <= i < attempts :: !lookups[i]
    {
      if lookups[attempts] {
        return true;
      }
      attempts := attempts + 1;
    }
    return false;
  }

  /** The three things the helper reads and writes. */
  datatype View = Dhcp(live: string, saved: string, backup: Option<string>, marker: Option<Marker>)

  class Helper {
    var live: string            // what `uci export dhcp` prints, pending changes included
    var saved: string           // what is committed
    var backup: Option<string>
    var marker: Option<Marker>

    /** A usable backup file: [ -s ] refuses an empty one. */
    predicate HasBackup()
      reads this
    {
      backup.Some? && backup.value != ""
    }

    /** While the marker is there, it vouches for the backup. */
    ghost predicate Inv()
      reads this
    {
      marker.Some? ==> backup == Some(marker.value.backup)
    }

    function View(): View
      reads this
    {
      Dhcp(live, saved, backup, marker)
    }

    constructor (dhcp: string)
      ensures Inv() && live == saved == dhcp && marker.None? && backup.None?
    {
      live, saved, backup, marker := dhcp, dhcp, None, None;
    }

    /** Whether restore_dnsmasq gets as far as a committed import. */
    ghost predicate Imports(run: RestoreRun)
      reads this
    {
      HasBackup() && run.importOk && run.commitOk
    }

    method RestoreDnsmasq(run: RestoreRun) returns (ok: bool)
      requires |run.lookups| >= VERIFY_ATTEMPTS
      modifies this`live, this`saved
      ensures ok <==> Imports(run) && run.restartOk && Verifies(run.lookups)
      ensures Imports(run) ==> saved == backup.value
      ensures HasBackup() && run.importOk ==> live == backup.value
      ensures !HasBackup() ==> live == old(live) && saved == old(saved)
      ensures HasBackup() && !run.importOk ==> live == run.junk
      ensures !Imports(run) ==> saved == old(saved)
    {
      if !HasBackup() {
        return false;
      }
      if run.revertOk {
        live := saved;
      }
      if !run.importOk {
        live := run.junk;
        return false;
      }
      live := backup.value;
      if !run.commitOk {
        return false;
      }
      saved := live;
      if !run.restartOk {
        return false;
      }
      ok := VerifyDnsmasq(run.lookups);
    }

    /** enable_integration. The clauses say, in order: what a marker already there
        means; success; the rollback promise; and the exact loss: a failure after
        the batch deletes the backup whether or not the rollback worked, so the
        previous configuration survives if and only if the import did. */
    method Enable(run: EnableRun) returns (ok: bool)
      requires Inv() && |run.lookups| >= VERIFY_ATTEMPTS && |run.restore.lookups| >= VERIFY_ATTEMPTS
      modifies this
      ensures Inv()
      ensures old(marker).Some? ==> (ok <==> Verifies(run.lookups)) && View() == old(View())
      ensures old(marker).None? ==>
                (ok <==> run.Begins() && run.batchOk && run.restartOk && Verifies(run.lookups) && run.secondExportOk)
      ensures old(marker).None? && ok ==>
                && backup == Some(old(live)) && marker == Some(Marker(old(live), run.integrated))
                && live == saved == run.integrated
      ensures !ok && old(marker).None? ==> marker.None?
      ensures !ok && old(marker).None? && !(run.Begins()) ==>
                live == old(live) && saved == old(saved) && backup == old(backup)
      ensures !ok && old(marker).None? && run.Begins() && old(live) != "" && run.RollsBack() ==>
                live == saved == old(live)
      ensures !ok && old(marker).None? && run.Begins() ==>
                backup == if run.batchOk then None else Some(old(live))
      ensures !ok && old(marker).None? && run.Begins() && old(live) != "" && !run.restore.importOk ==>
                live == run.restore.junk
      ensures !ok && old(marker).None? && run.Begins() && run.batchOk && !run.RollsBack() ==>
                saved == run.integrated
      ensures !ok && old(marker).None? && run.Begins() && old(live) != "" ==>
                (live == old(live) || backup == Some(old(live)) <==>
                 !run.batchOk || run.restore.importOk || run.restore.junk == old(live))
    {
      if marker.Some? {
        ok := VerifyDnsmasq(run.lookups);
        return;
      }
      if !run.dryRunOk {
        return false;
      }
      if !run.exportOk {
        return false;
      }
      backup := Some(live);
      if !run.batchOk {
        live, saved := run.junkLive, run.junkSaved;
        var _ := RestoreDnsmasq(run.restore);
        return false;
      }
      live, saved := run.integrated, run.integrated;
      var verified := run.restartOk;
      if verified {
        verified := VerifyDnsmasq(run.lookups);
      }
      if !verified {
        var _ := RestoreDnsmasq(run.restore);
        backup := None;
        return false;
      }
      if !run.secondExportOk {
        var _ := RestoreDnsmasq(run.restore);
        backup := None;
        return false;
      }
      marker := Some(Marker(backup.value, live));
      return true;
    }

    /** disable_integration. It never touches a dhcp configuration other than the
        one it integrated; success restores the one from before the enable. */
    method Disable(run: DisableRun) returns (ok: bool)
      requires Inv() && |run.restore.lookups| >= VERIFY_ATTEMPTS
      modifies this`live, this`saved, this`backup, this`marker
      ensures Inv()
      ensures old(marker).None? ==> ok && View() == old(View())
      ensures old(marker).Some? && (!run.exportOk || old(live) != old(marker).value.integration) ==>
                !ok && View() == old(View())
      ensures old(marker).Some? && ok ==> live == saved == old(marker).value.backup && marker.None? && backup.None?
      ensures old(marker).Some? && !ok ==> marker == old(marker) && backup == old(backup)
      ensures old(marker).Some? ==>
                (ok <==> && run.exportOk && old(live) == old(marker).value.integration
                         && old(Imports(run.restore)) && run.restore.restartOk && Verifies(run.restore.lookups))
      ensures old(marker).Some? && run.exportOk && old(live == marker.value.integration && Imports(run.restore)) ==>
                live == saved == old(marker).value.backup
    {
      if marker.None? {
        return true;
      }
      if !run.exportOk {
        return false;
      }
      if live != marker.value.integration {
        return false;
      }
      ok := RestoreDnsmasq(run.restore);
      if !ok {
        return false;
      }
      marker, backup := None, None;
    }

    /** Someone else edits the dhcp configuration between calls. */
    method Edit(live': string, saved': string)
      requires Inv()
      modifies this`live, this`saved
      ensures Inv() && live == live' && saved == saved'
    {
      live, saved := live', saved';
    }
  }

  datatype Call = Enabling(e: EnableRun) | Disabling(d: DisableRun) | Editing(live: string, saved: string)

  ghost predicate LongEnough(c: Call) {
    match c
    case Enabling(e) => |e.lookups| >= VERIFY_ATTEMPTS && |e.restore.lookups| >= VERIFY_ATTEMPTS
    case Disabling(d) => |d.restore.lookups| >= VERIFY_ATTEMPTS
    case Editing(_, _) => true
  }

  /** The marker in view `i` was written by enable call `j`, the backup is the
      export from just before that call, and both were there ever since. */
  ghost predicate WrittenBy(calls: seq<Call>, views: seq<View>, i: nat, j: nat)
    requires |views| <= |calls| + 1 && j < i < |views|
  {
    && calls[j].Enabling? && views[j].marker.None?
    && views[i].marker == Some(Marker(views[j].live, views[j + 1].live))
    && (forall k | j < k <= i :: views[k].marker == views[i].marker && views[k].backup == Some(views[j].live))
  }

  ghost predicate Explained(calls: seq<Call>, views: seq<View>, i: nat)
    requires |views| <= |calls| + 1 && i < |views|
  {
    views[i].marker.Some? ==> exists j: nat :: j < i && WrittenBy(calls, views, i, j)
  }

  /** What a call may do to a marker that is there: leave it and the backup alone,
      or, as a disable that finds just the integrated configuration, restore the
      backup and remove both. A call that finds another configuration and is no
      edit leaves everything alone. */
  ghost predicate KeepsOrRestores(c: Call, v: View, w: View)
    requires v.marker.Some?
  {
    && ((w.marker == v.marker && w.backup == v.backup)
        || (c.Disabling? && v.live == v.marker.value.integration && w.marker.None? && w.backup.None?
            && Some(w.live) == Some(w.saved) == v.backup))
    && (!c.Editing? && v.live != v.marker.value.integration ==> w == v)
    && (c.Enabling? ==> w == v)
  }

  /** Only an enable writes a marker, and then with its own backup. */
  ghost predicate Writes(c: Call, v: View, w: View)
    requires v.marker.None?
  {
    w.marker.None?
    || (c.Enabling? && w.backup == Some(v.live) && w.marker == Some(Marker(v.live, w.live)) && w.live == w.saved)
  }

  ghost predicate Lawful(c: Call, v: View, w: View) {
    if v.marker.Some? then KeepsOrRestores(c, v, w) else Writes(c, v, w)
  }

  lemma ExplainedNext(calls: seq<Call>, views: seq<View>, w: View)
    requires 0 < |views| <= |calls| && Explained(calls, views, |views| - 1)
    requires Lawful(calls[|views| - 1], views[|views| - 1], w)
    ensures Explained(calls, views + [w], |views|)
  {
    var n, all := |views| - 1, views + [w];
    assert forall k | 0 <= k < |views| :: all[k] == views[k];
    if w.marker.Some? {
      if views[n].marker.None? {
        assert WrittenBy(calls, all, n + 1, n);
      } else {
        var j: nat :| j < n && WrittenBy(calls, views, n, j);
        assert WrittenBy(calls, all, n + 1, j);
      }
    }
  }

  /** One call; `ok` is its exit status. */
  method Perform(h: Helper, c: Call) returns (ok: bool)
    requires h.Inv() && LongEnough(c)
    modifies h
    ensures h.Inv() && Lawful(c, old(h.View()), h.View())
    ensures c.Disabling? && old(h.View()).marker.Some? && old(h.live) != old(h.View()).marker.value.integration ==> !ok
  {
    match c {
      case Enabling(e) => ok := h.Enable(e);
      case Disabling(d) => ok := h.Disable(d);
      case Editing(live, saved) =>
        h.Edit(live, saved);
        ok := true;
    }
  }

  /** Every sequence of enables, disables and outside edits, with commands failing
      anywhere, from a system without marker: each step is lawful, and whenever a
      marker is present the backup is the dhcp export from just before the very
      enable that wrote it. */
  method Session(h: Helper, calls: seq<Call>) returns (views: seq<View>)
    requires h.marker.None? && forall i | 0 <= i < |calls| :: LongEnough(calls[i])
    modifies h
    ensures |views| == |calls| + 1 && views[0] == old(h.View()) && views[|calls|] == h.View()
    ensures forall i | 0 <= i < |calls| :: Lawful(calls[i], views[i], views[i + 1])
    ensures forall i | 0 <= i <= |calls| :: Explained(calls, views, i)
  {
    views := [h.View()];
    for i := 0 to |calls|
      invariant h.Inv() && |views| == i + 1 && views[0] == old(h.View()) && views[i] == h.View()
      invariant forall k | 0 <= k < i :: Lawful(calls[k], views[k], views[k + 1])
      invariant forall k | 0 <= k <= i :: Explained(calls, views, k)
    {
      var _ := Perform(h, calls[i]);
      ExplainedNext(calls, views, h.View());
      ExplainedKept(calls, views, h.View());
      views := views + [h.View()];
    }
  }

  lemma ExplainedKept(calls: seq<Call>, views: seq<View>, w: View)
    requires |views| <= |calls| && forall k | 0 <= k < |views| :: Explained(calls, views, k)
    ensures forall k | 0 <= k < |views| :: Explained(calls, views + [w], k)
  {
    var all := views + [w];
    assert forall k | 0 <= k < |views| :: all[k] == views[k];
    forall k | 0 <= k < |views| ensures Explained(calls, all, k) {
      assert Explained(calls, views, k);
      if views[k].marker.Some? {
        var j: nat :| j < k && WrittenBy(calls, views, k, j);
        assert WrittenBy(calls, all, k, j);
      }
    }
  }

  ghost predicate AllWork(d: DisableRun) {
    && d.exportOk && d.restore.importOk && d.restore.commitOk && d.restore.restartOk
    && Verifies(d.restore.lookups)
  }

  /** Enable and then disable, with all commands working, is the identity on the
      dhcp configuration, and leaves neither marker nor backup. */
  method EnableThenDisable(h: Helper, e: EnableRun, d: DisableRun) returns (on: bool, off: bool)
    requires h.Inv() && h.marker.None? && LongEnough(Enabling(e)) && LongEnough(Disabling(d))
    modifies h
    ensures on && off ==> h.live == h.saved == old(h.live) && h.marker.None? && h.backup.None?
    ensures on && old(h.live) != "" && AllWork(d) ==> off
  {
    on := h.Enable(e);
    off := h.Disable(d);
  }

  /** A disable that fails after its commit is final: the marker stays, and as the
      restored configuration is not the integrated one, no sequence of further
      enables and disables changes anything, and every disable among them is
      refused, however well its commands work, until someone edits the dhcp
      configuration back. */
  method LateFailureIsFinal(h: Helper, first: DisableRun, later: seq<Call>) returns (ok: bool, oks: seq<bool>)
    requires h.Inv() && h.marker.Some? && LongEnough(Disabling(first))
    requires forall i | 0 <= i < |later| :: LongEnough(later[i]) && !later[i].Editing?
    requires first.exportOk && h.live == h.marker.value.integration
             && h.marker.value.backup != h.marker.value.integration
    requires h.Imports(first.restore) && !(first.restore.restartOk && Verifies(first.restore.lookups))
    modifies h
    ensures !ok && |oks| == |later| && forall i | 0 <= i < |later| :: later[i].Disabling? ==> !oks[i]
    ensures h.marker == old(h.marker) && h.backup == old(h.backup) && h.live == h.saved == old(h.marker).value.backup
  {
    ok := h.Disable(first);
    oks := [];
    ghost var stuck := h.View();
    for i := 0 to |later|
      invariant h.Inv() && h.View() == stuck && |oks| == i
      invariant forall k | 0 <= k < i :: later[k].Disabling? ==> !oks[k]
    {
      var done := Perform(h, later[i]);
      oks := oks + [done];
    }
  }

  /** Such an edit is the way out: with the integrated text put back, a disable
      whose commands work succeeds. */
  method EditReopens(h: Helper, d: DisableRun) returns (ok: bool)
    requires h.Inv() && h.marker.Some? && h.HasBackup() && LongEnough(Disabling(d))
    requires AllWork(d)
    modifies h
    ensures ok && h.live == h.saved == old(h.marker).value.backup && h.marker.None?
  {
    var integrated := h.marker.value.integration;
    h.Edit(integrated, integrated);
    ok := h.Disable(d);
  }

  /** The original can be lost: the batch works, the verification fails, and so does
      the import of the rollback; neither the configuration nor the backup is left. */
  method OriginalLost() returns (h: Helper)
    ensures h.live == h.saved == "integrated" && h.backup.None? && h.marker.None?
  {
    h := new Helper("original");
    var never := seq(VERIFY_ATTEMPTS, i => false);
    var restore := RestoreRun(true, false, "integrated", true, true, never);
    var run := EnableRun(true, true, true, "integrated", "", "", true, never, true, restore);
    var _ := h.Enable(run);
  }
}
