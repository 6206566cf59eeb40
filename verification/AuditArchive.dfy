/** Verifiable archives of the oldest part of the audit ledger. */
module AuditArchive {
  import opened Wrappers
  import opened Ledger

  const ARCHIVE_FORMAT_VERSION := 1
  const SECONDS_PER_DAY := 86400

  datatype ArchiveFile = ArchiveFile(formatVersion: int, cutoffAt: int, events: seq<AuditEvent>)

  /** SHA-256 of the archive bytes, taken as collision free. */
  datatype FileDigest = FileDigest(content: ArchiveFile)

  datatype ArchiveManifest = ArchiveManifest(
    formatVersion: int,
    archiveFile: string,
    createdAt: int,
    cutoffAt: int,
    eventCount: int,
    firstSequence: int,
    lastSequence: int,
    firstPreviousHash: Hash,
    lastEventHash: Hash,
    archiveSha256: FileDigest)

  datatype ArchiveError =
    | InvalidPolicy
    | FileExists
    | LedgerInvalid
    | NothingEligible
    | NonMonotonicTimestamps
    | UnsupportedFormat
    | FilenameMismatch
    | HashMismatch
    | PayloadVersionMismatch
    | CutoffMismatch
    | NoEvents
    | CountMismatch
    | NotFromSequenceOne
    | LastSequenceMismatch
    | NotFromGenesis
    | LastHashMismatch

  predicate Due(e: AuditEvent, cutoff: int) { e.createdAt <= cutoff }

  /** The events at or before the cutoff, in ledger order. */
  ghost function DueEvents(events: seq<AuditEvent>, cutoff: int): seq<AuditEvent> {
    if events == [] then [] else
    var rest := DueEvents(events[..|events| - 1], cutoff);
    if Due(events[|events| - 1], cutoff) then rest + [events[|events| - 1]] else rest
  }

  /** All due events come before all others. */
  ghost predicate DuePrefix(events: seq<AuditEvent>, cutoff: int) {
    forall i, j :: 0 <= i < j < |events| && Due(events[j], cutoff) ==> Due(events[i], cutoff)
  }

  lemma {:induction false} DueEventsAreDue(events: seq<AuditEvent>, cutoff: int)
    ensures forall e :: e in DueEvents(events, cutoff) <==> e in events && e.createdAt <= cutoff
  {
    if events == [] {
    } else {
      var init, last := events[..|events| - 1], events[|events| - 1];
      DueEventsAreDue(init, cutoff);
      assert events == init + [last];
    }
  }

  /** The loop with break: the longest prefix of due events. */
  method EligiblePrefix(events: seq<AuditEvent>, cutoff: int) returns (eligible: seq<AuditEvent>)
    ensures eligible <= events && forall e :: e in eligible ==> Due(e, cutoff)
    ensures |eligible| < |events| ==> !Due(events[|eligible|], cutoff)
  {
    eligible := [];
    for i := 0 to |events|
      invariant eligible == events[..i]
      invariant forall e :: e in eligible ==> Due(e, cutoff)
    {
      if !Due(events[i], cutoff) { break; }
      eligible := eligible + [events[i]];
    }
  }

  lemma {:induction false} PrefixIsDue(events: seq<AuditEvent>, cutoff: int, n: nat)
    requires n <= |events|
    requires forall i :: 0 <= i < |events| ==> (Due(events[i], cutoff) <==> i < n)
    ensures DueEvents(events, cutoff) == events[..n]
    decreases |events|
  {
    if events == [] {
    } else {
      var init := events[..|events| - 1];
      if n == |events| {
        PrefixIsDue(init, cutoff, n - 1);
        assert events[..n] == init[..n - 1] + [events[|events| - 1]];
      } else {
        PrefixIsDue(init, cutoff, n);
        assert events[..n] == init[..n];
      }
    }
  }

  lemma NothingDue(events: seq<AuditEvent>, cutoff: int)
    requires DuePrefix(events, cutoff) && (events != [] ==> !Due(events[0], cutoff))
    ensures DueEvents(events, cutoff) == []
  {
    PrefixIsDue(events, cutoff, 0);
  }

  /** Prefix selection: succeeds exactly when the due events are a non-empty prefix. */
  method SelectEligible(all: seq<AuditEvent>, cutoff: int) returns (r: Result<seq<AuditEvent>, ArchiveError>)
    ensures r.Ok? <==> DuePrefix(all, cutoff) && DueEvents(all, cutoff) != []
    ensures r.Ok? ==> r.value == DueEvents(all, cutoff) && r.value <= all && r.value != []
    ensures r.Err? ==> r.error == NothingEligible || r.error == NonMonotonicTimestamps
    ensures r == Err(NonMonotonicTimestamps) ==> !DuePrefix(all, cutoff)
    ensures r == Err(NothingEligible) ==> all == [] || all[0].createdAt > cutoff
  {
    var eligible := EligiblePrefix(all, cutoff);
    var n := |eligible|;
    if eligible == [] {
      if DuePrefix(all, cutoff) { NothingDue(all, cutoff); }
      return Err(NothingEligible);
    }
    if exists e :: e in all[n..] && Due(e, cutoff) {
      LateDueEvent(all, cutoff, n);
      return Err(NonMonotonicTimestamps);
    }
    forall i | 0 <= i < |all| ensures Due(all[i], cutoff) <==> i < n {
      if i >= n { assert all[i] in all[n..]; } else { assert all[i] == eligible[i] && eligible[i] in eligible; }
    }
    PrefixIsDue(all, cutoff, n);
    return Ok(eligible);
  }

  /**
   create_archive. On success the file holds exactly the events at or before the cutoff, a non-empty
   prefix of a verified ledger that verify_archive accepts; and it succeeds whenever there is one.
   */
  method CreateArchive(ledger: AuditLedger, archiveAfterDays: int, archiveName: string, present: bool,
                       overwrite: bool, now: int)
    returns (r: Result<(ArchiveFile, ArchiveManifest), ArchiveError>)
    ensures r.Ok? <==>
            var cutoff := now - archiveAfterDays * SECONDS_PER_DAY;
            && archiveAfterDays >= 1 && (present ==> overwrite) && Chained(ledger.events)
            && DuePrefix(ledger.events, cutoff) && DueEvents(ledger.events, cutoff) != []
    ensures r.Ok? ==>
              var cutoff := now - archiveAfterDays * SECONDS_PER_DAY;
              && r.value.0 == ArchiveFile(ARCHIVE_FORMAT_VERSION, cutoff, DueEvents(ledger.events, cutoff))
              && r.value.0.events <= ledger.events
              && Matches(r.value.0, archiveName, r.value.1) && r.value.1.createdAt == now
    ensures r == Err(InvalidPolicy) <==> archiveAfterDays < 1
    ensures r == Err(FileExists) <==> archiveAfterDays >= 1 && present && !overwrite
    ensures r.Ok? ==> forall e :: e in r.value.0.events <==>
                                  e in ledger.events && e.createdAt <= now - archiveAfterDays * 24 * 60 * 60
  {
    if archiveAfterDays < 1 { return Err(InvalidPolicy); }
    if present && !overwrite { return Err(FileExists); }
    var valid := ledger.VerifyIntegrity();
    if valid.Err? { return Err(LedgerInvalid); }
    var cutoff := now - archiveAfterDays * SECONDS_PER_DAY;
    var selected := SelectEligible(ledger.events, cutoff);
    if selected.Err? { return Err(selected.error); }
    var eligible := selected.value;
    DueEventsAreDue(ledger.events, cutoff);
    ChainedPrefix(ledger.events, |eligible|);
    assert eligible == ledger.events[..|eligible|] && eligible[..0] == [];
    var verified := AuditLedger.FromEvents(eligible);
    if verified.Err? { return Err(LedgerInvalid); }
    var file := ArchiveFile(ARCHIVE_FORMAT_VERSION, cutoff, eligible);
    var last := eligible[|eligible| - 1];
    var manifest := ArchiveManifest(
      ARCHIVE_FORMAT_VERSION, archiveName, now, cutoff, |eligible|, eligible[0].sequence, last.sequence,
      eligible[0].previousHash, last.eventHash, FileDigest(file));
    return Ok((file, manifest));
  }

  lemma LateDueEvent(events: seq<AuditEvent>, cutoff: int, n: nat)
    requires n <= |events| && (n < |events| ==> !Due(events[n], cutoff))
    requires exists e :: e in events[n..] && Due(e, cutoff)
    ensures !DuePrefix(events, cutoff)
  {
    var e :| e in events[n..] && Due(e, cutoff);
    var j :| 0 <= j < |events[n..]| && events[n..][j] == e;
    assert events[n + j] == e && Due(events[n + j], cutoff) && n < n + j;
  }

  /** What verify_archive accepts. */
  predicate Matches(file: ArchiveFile, archiveName: string, m: ArchiveManifest) {
    && m.formatVersion == ARCHIVE_FORMAT_VERSION && m.archiveFile == archiveName
    && m.archiveSha256 == FileDigest(file)
    && file.formatVersion == ARCHIVE_FORMAT_VERSION && file.cutoffAt == m.cutoffAt
    && file.events != [] && Chained(file.events)
    && m.eventCount == |file.events| && m.firstSequence == 1
    && m.lastSequence == |file.events| && m.firstPreviousHash == Genesis
    && m.lastEventHash == HeadHash(file.events)
  }

  method VerifyArchive(file: ArchiveFile, archiveName: string, m: ArchiveManifest) returns (r: Result<(), ArchiveError>)
    ensures r.Ok? <==> Matches(file, archiveName, m)
  {
    if m.formatVersion != ARCHIVE_FORMAT_VERSION { return Err(UnsupportedFormat); }
    if m.archiveFile != archiveName { return Err(FilenameMismatch); }
    if FileDigest(file) != m.archiveSha256 { return Err(HashMismatch); }
    if file.formatVersion != ARCHIVE_FORMAT_VERSION { return Err(PayloadVersionMismatch); }
    if file.cutoffAt != m.cutoffAt { return Err(CutoffMismatch); }
    if file.events == [] { return Err(NoEvents); }
    var events := file.events;
    var verified := AuditLedger.FromEvents(events);
    if verified.Err? { return Err(LedgerInvalid); }
    assert events[..0] == [];
    if m.eventCount != |events| { return Err(CountMismatch); }
    if m.firstSequence != events[0].sequence || m.firstSequence != 1 { return Err(NotFromSequenceOne); }
    if m.lastSequence != events[|events| - 1].sequence { return Err(LastSequenceMismatch); }
    if m.firstPreviousHash != Genesis || events[0].previousHash != Genesis { return Err(NotFromGenesis); }
    if m.lastEventHash != events[|events| - 1].eventHash { return Err(LastHashMismatch); }
    return Ok(());
  }

  /**
   An archive is bound to its manifest by the last event hash alone: any two archives that verify against
   manifests naming the same last hash hold the same events.
   */
  lemma LastHashFixesArchive(f: ArchiveFile, g: ArchiveFile, nameF: string, nameG: string,
                             m: ArchiveManifest, n: ArchiveManifest)
    requires Matches(f, nameF, m) && Matches(g, nameG, n) && m.lastEventHash == n.lastEventHash
    ensures f.events == g.events
  {
    HeadDeterminesHistory(f.events, g.events);
  }

  /** A manifest verifies one file, under one name. */
  lemma ManifestFixesFile(f: ArchiveFile, g: ArchiveFile, nameF: string, nameG: string, m: ArchiveManifest)
    requires Matches(f, nameF, m) && Matches(g, nameG, m)
    ensures f == g && nameF == nameG
  {
  }

  /** And one file under one name has one manifest, but for the time it was made. */
  lemma FileFixesManifest(f: ArchiveFile, name: string, m: ArchiveManifest, n: ArchiveManifest)
    requires Matches(f, name, m) && Matches(f, name, n)
    ensures n == m.(createdAt := n.createdAt)
    ensures m.eventCount == |f.events| >= 1 && m.firstSequence == f.events[0].sequence
    ensures m.lastSequence == f.events[|f.events| - 1].sequence
  {
    assert f.events[..0] == [];
  }

  /** A later archive of the same growing ledger extends an earlier one. */
  lemma ArchivesGrow(events: seq<AuditEvent>, more: seq<AuditEvent>, early: int, late: int)
    requires early <= late && DuePrefix(events, early) && DuePrefix(events + more, late)
    requires forall i :: 0 <= i < |more| ==> !Due(more[i], early)
    ensures DueEvents(events, early) <= DueEvents(events + more, late)
  {
    var n := DueCount(events, early);
    var k := DueCount(events + more, late);
    PrefixIsDue(events, early, n);
    PrefixIsDue(events + more, late, k);
    if n > 0 { assert Due((events + more)[n - 1], late); }
  }

  lemma {:induction false} DueCount(events: seq<AuditEvent>, cutoff: int) returns (n: nat)
    requires DuePrefix(events, cutoff)
    ensures n <= |events| && forall i :: 0 <= i < |events| ==> (Due(events[i], cutoff) <==> i < n)
  {
    if events == [] {
      n := 0;
    } else if Due(events[|events| - 1], cutoff) {
      n := |events|;
    } else {
      var init := events[..|events| - 1];
      assert forall i :: 0 <= i < |init| ==> init[i] == events[i];
      n := DueCount(init, cutoff);
      assert forall i :: 0 <= i < |init| ==> (Due(events[i], cutoff) <==> Due(init[i], cutoff));
    }
  }
}
