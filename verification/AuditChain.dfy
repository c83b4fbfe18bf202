/** swarm/intelligence/constitutional_audit.py: the audit log whose entries carry the hash of the one before. Hashes
    come from the caller; timestamps and the descriptive fields of an entry are not modelled. */
module AuditChains {
  import opened Prelude

  datatype Kind = CheckPerformed | ViolationDetected | ViolationResolved

  /** What happened. */
  datatype Fact = Fact(kind: Kind, artifactId: string, agentId: string, evidenceHash: string)

  datatype Entry = Entry(fact: Fact, previousHash: Option<string>)

  datatype Violation = Violation(artifactId: string, evidenceHash: string)

  datatype State = State(log: seq<Entry>, lastHash: Option<string>)

  const KEEP := 5000

  function Tail<T>(s: seq<T>, n: nat): seq<T> {
    if |s| > n then s[|s| - n..] else s
  }

  /** One append. Only a check shortens the log. */
  function Appended(s: State, f: Fact): State {
    var log := s.log + [Entry(f, s.lastHash)];
    State(if f.kind.CheckPerformed? then Tail(log, KEEP) else log, Some(f.evidenceHash))
  }

  function After(fs: seq<Fact>): State {
    if fs == [] then State([], None) else Appended(After(fs[..|fs| - 1]), fs[|fs| - 1])
  }

  lemma AfterOneMore(fs: seq<Fact>, f: Fact)
    ensures After(fs + [f]) == Appended(After(fs), f)
  {
    assert (fs + [f])[..|fs|] == fs;
  }

  /** The log that nothing was ever dropped from. */
  function Ledger(fs: seq<Fact>): seq<Entry> {
    seq(|fs|, i requires 0 <= i < |fs| => Entry(fs[i], if i == 0 then None else Some(fs[i - 1].evidenceHash)))
  }

  /** No check was recorded once 5000 facts had been. */
  ghost predicate NothingDropped(fs: seq<Fact>) {
    forall i :: 5000 <= i < |fs| ==> !fs[i].kind.CheckPerformed?
  }

  ghost predicate LinkAt(log: seq<Entry>, i: nat)
    requires i < |log|
  {
    log[i].previousHash == if i == 0 then None else Some(log[i - 1].fact.evidenceHash)
  }

  /** What verification reports: the first entry that does not carry the hash of the one before. */
  ghost predicate FirstBreak(log: seq<Entry>, r: Option<nat>) {
    match r
    case None => forall i :: 0 <= i < |log| ==> LinkAt(log, i)
    case Some(k) => k < |log| && !LinkAt(log, k) && forall i :: 0 <= i < k ==> LinkAt(log, i)
  }

  /** The log is what is left of the ledger at its end: every entry carries the hash of the fact before it. */
  lemma {:induction false} LogEndsLedger(fs: seq<Fact>)
    ensures |After(fs).log| <= |fs| && After(fs).log == Ledger(fs)[|fs| - |After(fs).log|..]
    ensures fs != [] ==> After(fs).log != [] && After(fs).lastHash == Some(fs[|fs| - 1].evidenceHash)
    ensures fs == [] ==> After(fs).lastHash == None
  {
    if fs != [] {
      var front := fs[..|fs| - 1];
      LogEndsLedger(front);
      var last := Entry(fs[|fs| - 1], After(front).lastHash);
      LedgerGrows(front, fs[|fs| - 1]);
      assert front + [fs[|fs| - 1]] == fs;
      hide Ledger, Tail;
      EndsStays(Ledger(front), After(front).log, last, KEEP);
    }
  }

  lemma LedgerGrows(fs: seq<Fact>, f: Fact)
    ensures Ledger(fs + [f]) == Ledger(fs) + [Entry(f, if fs == [] then None else Some(fs[|fs| - 1].evidenceHash))]
  {
  }

  lemma EndsStays<T>(all: seq<T>, end: seq<T>, x: T, n: nat)
    requires |end| <= |all| && end == all[|all| - |end|..]
    ensures end + [x] == (all + [x])[|all| - |end|..]
    ensures var t := Tail(end + [x], n); |t| <= |end| + 1 && t == (all + [x])[|all| + 1 - |t|..]
    ensures n > 0 ==> Tail(end + [x], n) != []
  {
  }

  lemma {:induction false} DroppedExactly(fs: seq<Fact>)
    ensures |After(fs).log| == |fs| <==> NothingDropped(fs)
    ensures !NothingDropped(fs) ==> 5000 <= |After(fs).log| < |fs|
  {
    if fs != [] {
      var front := fs[..|fs| - 1];
      DroppedExactly(front);
      LogEndsLedger(front);
      assert NothingDropped(fs) <==> NothingDropped(front) && (fs[|fs| - 1].kind.CheckPerformed? ==> |fs| <= KEEP);
    }
  }

  /** Once a check has been recorded with 5000 facts before it, the log holds the last 5000 facts up to the latest
      check and everything since. */
  lemma {:induction false} LogSize(fs: seq<Fact>, last: nat)
    requires 5000 <= last < |fs| && fs[last].kind.CheckPerformed?
    requires forall i :: last < i < |fs| ==> !fs[i].kind.CheckPerformed?
    ensures |After(fs).log| == 5000 + (|fs| - 1 - last)
  {
    var front := fs[..|fs| - 1];
    if last == |fs| - 1 {
      DroppedExactly(front);
      LogEndsLedger(front);
    } else {
      LogSize(front, last);
    }
  }

  /** Verification succeeds exactly while no entry was ever dropped; after that it reports entry 0 for ever. */
  lemma VerifyExactly(fs: seq<Fact>, r: Option<nat>)
    requires FirstBreak(After(fs).log, r)
    ensures r == if NothingDropped(fs) then None else Some(0)
  {
    LogEndsLedger(fs);
    DroppedExactly(fs);
    var log := After(fs).log;
    if NothingDropped(fs) {
      forall i | 0 <= i < |log| ensures LinkAt(log, i) {
      }
    } else {
      assert log[0] == Ledger(fs)[|fs| - |log|];
      assert !LinkAt(log, 0);
    }
  }

  /** Taking one entry out of a sound log is noticed at its place, unless it was the last or repeats the hash before
      it. Hashes do repeat: that of a violation leaves out its artifact, its time and its id. */
  lemma RemovalIsFound(log: seq<Entry>, k: nat, r: Option<nat>)
    requires FirstBreak(log, None) && k < |log|
    requires FirstBreak(log[..k] + log[k + 1..], r)
    ensures r ==
      if k == |log| - 1 || (k > 0 && log[k].fact.evidenceHash == log[k - 1].fact.evidenceHash) then None else Some(k)
  {
    var less := log[..k] + log[k + 1..];
    forall i | 0 <= i < |less| && i != k ensures LinkAt(less, i) {
      assert LinkAt(log, if i < k then i else i + 1);
    }
    if k < |log| - 1 {
      assert LinkAt(log, k + 1) && less[k] == log[k + 1];
      assert k > 0 ==> less[k - 1] == log[k - 1];
      assert LinkAt(less, k) <==> k > 0 && log[k].fact.evidenceHash == log[k - 1].fact.evidenceHash;
    }
  }

  /** Everything but the hashes can be changed unnoticed. */
  lemma OnlyHashesCount(log: seq<Entry>, forged: seq<Entry>, r: Option<nat>)
    requires |forged| == |log| && FirstBreak(log, r)
    requires forall i :: 0 <= i < |log| ==>
      forged[i].previousHash == log[i].previousHash && forged[i].fact.evidenceHash == log[i].fact.evidenceHash
    ensures FirstBreak(forged, r)
  {
    forall i | 0 <= i < |log| ensures LinkAt(forged, i) == LinkAt(log, i) {
    }
  }

  lemma OneMore<T>(before: seq<T>, more: seq<T>, i: nat)
    requires i < |more|
    ensures before + more[..i + 1] == before + more[..i] + [more[i]]
  {
  }

  class ConstitutionalAudit {
    var auditLog: seq<Entry>
    var lastHash: Option<string>
    /** The saved log. */
    var file: Option<seq<Entry>>
    /** Every fact recorded, and every fact recorded when the file was written. */
    ghost var facts: seq<Fact>
    ghost var saved: seq<Fact>

    ghost predicate Valid()
      reads this
    {
      && State(auditLog, lastHash) == After(facts)
      && IsSaved(file, saved)
    }

    constructor (file: Option<seq<Entry>>, ghost saved: seq<Fact>)
      requires IsSaved(file, saved)
      ensures Valid() && facts == saved == this.saved && this.file == file
    {
      this.file := file;
      var log := if file.Some? then file.value else [];
      auditLog := log;
      lastHash := if log == [] then None else Some(log[|log| - 1].fact.evidenceHash);
      this.facts, this.saved := saved, saved;
      LogEndsLedger(saved);
    }

    method SaveAuditLog()
      requires Valid()
      modifies this`file, this`saved
      ensures Valid() && file == Some(auditLog) && saved == facts
    {
      file := Some(auditLog);
      saved := facts;
    }

    method AuditCheck(check: Fact, violations: seq<Fact>)
      requires Valid() && check.kind.CheckPerformed?
      requires forall v :: v in violations ==> v.kind.ViolationDetected?
      modifies this
      ensures Valid() && facts == old(facts) + [check] + violations && saved == facts && file == Some(auditLog)
    {
      hide After;
      AfterOneMore(facts, check);
      auditLog := auditLog + [Entry(check, lastHash)];
      if |auditLog| > KEEP {
        auditLog := auditLog[|auditLog| - KEEP..];
      }
      lastHash := Some(check.evidenceHash);
      facts := facts + [check];
      for i := 0 to |violations|
        invariant Valid() && facts == old(facts) + [check] + violations[..i]
      {
        AuditViolation(violations[i]);
        OneMore(old(facts) + [check], violations, i);
      }
      assert violations[..|violations|] == violations;
      SaveAuditLog();
    }

    method AuditViolation(violation: Fact)
      requires Valid() && violation.kind.ViolationDetected?
      modifies this
      ensures Valid() && facts == old(facts) + [violation] && saved == facts && file == Some(auditLog)
    {
      hide After;
      AfterOneMore(facts, violation);
      auditLog := auditLog + [Entry(violation, lastHash)];
      lastHash := Some(violation.evidenceHash);
      facts := facts + [violation];
      SaveAuditLog();
    }

    /** known is the guard's table of violations; hash stands for the digest of the two ids. */
    method RecordViolationResolved(known: map<string, Violation>, violationId: string, resolverId: string, hash: string)
      returns (ok: bool)
      requires Valid()
      modifies this
      ensures Valid() && (ok <==> violationId in known)
      ensures facts ==
        if ok then old(facts) + [Fact(ViolationResolved, known[violationId].artifactId, resolverId, hash)]
        else old(facts)
      ensures if ok then saved == facts && file == Some(auditLog) else saved == old(saved) && file == old(file)
    {
      if violationId !in known {
        return false;
      }
      var resolved := Fact(ViolationResolved, known[violationId].artifactId, resolverId, hash);
      AfterOneMore(facts, resolved);
      auditLog := auditLog + [Entry(resolved, lastHash)];
      lastHash := Some(hash);
      facts := facts + [resolved];
      SaveAuditLog();
      return true;
    }

    method VerifyAuditChain() returns (ok: bool, broken: Option<nat>)
      requires Valid()
      ensures FirstBreak(auditLog, broken) && (ok <==> broken.None?)
      ensures ok <==> NothingDropped(facts)
      ensures !ok ==> broken == Some(0)
    {
      var previousHash := None;
      for i := 0 to |auditLog|
        invariant previousHash == if i == 0 then None else Some(auditLog[i - 1].fact.evidenceHash)
        invariant forall j :: 0 <= j < i ==> LinkAt(auditLog, j)
      {
        if auditLog[i].previousHash != previousHash {
          VerifyExactly(facts, Some(i));
          return false, Some(i);
        }
        previousHash := Some(auditLog[i].fact.evidenceHash);
      }
      VerifyExactly(facts, None);
      return true, None;
    }
  }

  /** What the file can hold after the facts in saved were written. */
  ghost predicate IsSaved(file: Option<seq<Entry>>, saved: seq<Fact>) {
    if file.Some? then file.value == After(saved).log else saved == []
  }
}
