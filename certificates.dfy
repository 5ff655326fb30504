/**
 * Olympiad certificates: the certificate number format, the grading of
 * qualified results, the two issuing routines (the certificate service and
 * the olympiad-completion signal), the trigger of that signal, and the
 * course statistics the lesson signal keeps.  Every issuing routine grants a
 * certificate only to a user who holds none for the olympiad yet, so there
 * is never more than one per (user, olympiad).
 */
module Certificates {
  import opened Text
  import opened Models

  // ------------------------------------------------------------ numbers

  /** `string.ascii_uppercase + string.digits`, the alphabet of the number's suffix. */
  const Alphabet: string := "ABCDEFGHIJKLMNOPQRSTUVWXYZ0123456789"

  /**
   * `generate_cert_number`: "ARD-", the year, "-", four drawn characters,
   * "-", four more.  `picks` are the eight positions in `Alphabet` that
   * `random.choices` drew; the year is the clock's.
   */
  function CertNumber(year: nat, picks: seq<nat>): (r: string)
    requires |picks| == 8 && forall k :: 0 <= k < 8 ==> picks[k] < |Alphabet|
    ensures |r| == 14 + |NatToString(year)|
    ensures r[..4] == "ARD-" && r[4..|r| - 10] == NatToString(year)
    ensures r[|r| - 10] == '-' && r[|r| - 5] == '-'
    ensures forall k :: |r| - 9 <= k < |r| - 5 ==> r[k] == Alphabet[picks[k - (|r| - 9)]]
    ensures forall k :: |r| - 4 <= k < |r| ==> r[k] == Alphabet[picks[k - (|r| - 8)]]
  {
    var suffix := seq(8, k requires 0 <= k < 8 => Alphabet[picks[k]]);
    "ARD-" + NatToString(year) + "-" + suffix[..4] + "-" + suffix[4..]
  }

  /** A certificate number determines the year and every drawn character. */
  lemma CertNumberDeterminesDraw(y1: nat, p1: seq<nat>, y2: nat, p2: seq<nat>)
    requires |p1| == 8 && forall k :: 0 <= k < 8 ==> p1[k] < |Alphabet|
    requires |p2| == 8 && forall k :: 0 <= k < 8 ==> p2[k] < |Alphabet|
    requires CertNumber(y1, p1) == CertNumber(y2, p2)
    ensures y1 == y2
    ensures forall k :: 0 <= k < 8 ==> Alphabet[p1[k]] == Alphabet[p2[k]]
  {
    var r := CertNumber(y1, p1);
    assert NatToString(y1) == r[4..|r| - 10] == NatToString(y2);
    IntToStringInjective(y1, y2);
    forall k | 0 <= k < 8 ensures Alphabet[p1[k]] == Alphabet[p2[k]] {
      if k < 4 {
        assert r[|r| - 9 + k] == Alphabet[p1[k]];
      } else {
        assert r[|r| - 8 + k] == Alphabet[p1[k]];
      }
    }
  }

  // -------------------------------------------------------- certificates

  datatype CertType = CourseCert | OlympiadCert | Diploma

  datatype CertStatus = CertPending | CertVerified | CertRejected

  /** The `grade` text: a medal, a percentage, or "Ishtirok etdi" for taking part. */
  datatype Grade = Gold | Silver | Bronze | PercentGrade(p: real) | Participated

  /** A Certificate row, without its number, date and files. */
  datatype Certificate = Certificate(
    user: UserId, olympiad: Option<OlympiadId>,
    certType: CertType, grade: Grade, score: int, status: CertStatus)

  /** The medal of a qualified percentage. */
  function Medal(percentage: real): (g: Grade)
    ensures g in {Gold, Silver, Bronze}
    ensures g == Gold <==> percentage >= 90.0
    ensures g == Silver <==> 80.0 <= percentage < 90.0
    ensures g == Bronze <==> percentage < 80.0
  {
    if percentage >= 90.0 then Gold else if percentage >= 80.0 then Silver else Bronze
  }

  function MedalRank(g: Grade): nat
  {
    match g
      case Gold => 3
      case Silver => 2
      case Bronze => 1
      case _ => 0
  }

  /** A higher percentage never earns a lower medal. */
  lemma MedalMonotone(a: real, b: real)
    requires a <= b
    ensures MedalRank(Medal(a)) <= MedalRank(Medal(b))
  {
  }

  /** Whether some certificate in `certs` is the user's for the olympiad. */
  predicate HoldsIn(certs: seq<Certificate>, uid: UserId, oid: OlympiadId)
  {
    exists i :: 0 <= i < |certs| && certs[i].user == uid && certs[i].olympiad == Some(oid)
  }

  /** At most one certificate per (user, olympiad). */
  predicate OnePerOlympiad(certs: seq<Certificate>)
  {
    forall i, j :: 0 <= i < j < |certs| && certs[i].olympiad.Some? ==>
      !(certs[i].user == certs[j].user && certs[i].olympiad == certs[j].olympiad)
  }

  /** The existence check both routines make before creating: `c` is added unless its user already holds one for its olympiad. */
  function Grant(certs: seq<Certificate>, c: Certificate): (r: seq<Certificate>)
    requires c.olympiad.Some?
    ensures HoldsIn(r, c.user, c.olympiad.value)
    ensures r == certs || r == certs + [c]
    ensures r == certs + [c] <==> !HoldsIn(certs, c.user, c.olympiad.value)
  {
    if HoldsIn(certs, c.user, c.olympiad.value) then certs
    else
      var r := certs + [c];
      assert r[|certs|] == c;
      r
  }

  lemma GrantKeepsOnePerOlympiad(certs: seq<Certificate>, c: Certificate)
    requires c.olympiad.Some? && OnePerOlympiad(certs)
    ensures OnePerOlympiad(Grant(certs, c))
  {
    if !HoldsIn(certs, c.user, c.olympiad.value) {
      var r := certs + [c];
      forall i, j | 0 <= i < j < |r| && r[i].olympiad.Some?
        ensures !(r[i].user == r[j].user && r[i].olympiad == r[j].olympiad)
      {
        if j == |certs| {
          assert r[i] == certs[i] && r[j] == c;
        }
      }
    }
  }

  /** Candidates for an olympiad: each names that olympiad. */
  predicate ForOlympiad(cands: seq<Certificate>, oid: OlympiadId)
  {
    forall k :: 0 <= k < |cands| ==> cands[k].olympiad == Some(oid)
  }

  /** Granting the candidates one after another, in order. */
  function GrantAll(certs: seq<Certificate>, cands: seq<Certificate>, oid: OlympiadId): (r: seq<Certificate>)
    requires ForOlympiad(cands, oid)
    decreases |cands|
  {
    if cands == [] then certs else GrantAll(Grant(certs, cands[0]), cands[1..], oid)
  }

  /** Granting only ever appends, and what it appends are candidates. */
  lemma {:induction false} GrantAllAppendsCandidates(certs: seq<Certificate>, cands: seq<Certificate>, oid: OlympiadId)
    requires ForOlympiad(cands, oid)
    ensures var r := GrantAll(certs, cands, oid);
      |certs| <= |r| <= |certs| + |cands| && r[..|certs|] == certs
      && forall k :: |certs| <= k < |r| ==> r[k] in cands
    decreases |cands|
  {
    if cands != [] {
      var g := Grant(certs, cands[0]);
      GrantAllAppendsCandidates(g, cands[1..], oid);
      var r := GrantAll(certs, cands, oid);
      assert r == GrantAll(g, cands[1..], oid);
      assert r[..|certs|] == certs by {
        assert r[..|g|] == g;
        assert g[..|certs|] == certs;
      }
      forall k | |certs| <= k < |r| ensures r[k] in cands {
        if k < |g| {
          assert r[k] == g[k] == cands[0];
        } else {
          assert r[k] in cands[1..];
        }
      }
    }
  }

  /** After granting, every candidate's user holds a certificate for the olympiad. */
  lemma {:induction false} GrantAllCovers(certs: seq<Certificate>, cands: seq<Certificate>, oid: OlympiadId)
    requires ForOlympiad(cands, oid)
    ensures forall c :: c in cands ==> HoldsIn(GrantAll(certs, cands, oid), c.user, oid)
    ensures forall u :: HoldsIn(certs, u, oid) ==> HoldsIn(GrantAll(certs, cands, oid), u, oid)
    decreases |cands|
  {
    var r := GrantAll(certs, cands, oid);
    GrantAllAppendsCandidates(certs, cands, oid);
    forall u | HoldsIn(certs, u, oid) ensures HoldsIn(r, u, oid) {
      var i :| 0 <= i < |certs| && certs[i].user == u && certs[i].olympiad == Some(oid);
      assert r[i] == r[..|certs|][i] == certs[i];
    }
    if cands != [] {
      var g := Grant(certs, cands[0]);
      GrantAllCovers(g, cands[1..], oid);
      forall c | c in cands ensures HoldsIn(r, c.user, oid) {
        if c == cands[0] {
          assert HoldsIn(g, cands[0].user, oid);
        } else {
          assert cands == [cands[0]] + cands[1..];
          assert c in cands[1..];
        }
      }
    }
  }

  lemma {:induction false} GrantAllKeepsOnePerOlympiad(certs: seq<Certificate>, cands: seq<Certificate>, oid: OlympiadId)
    requires ForOlympiad(cands, oid) && OnePerOlympiad(certs)
    ensures OnePerOlympiad(GrantAll(certs, cands, oid))
    decreases |cands|
  {
    if cands != [] {
      GrantKeepsOnePerOlympiad(certs, cands[0]);
      GrantAllKeepsOnePerOlympiad(Grant(certs, cands[0]), cands[1..], oid);
    }
  }

  lemma {:induction false} GrantAllAppend(certs: seq<Certificate>, a: seq<Certificate>, b: seq<Certificate>, oid: OlympiadId)
    requires ForOlympiad(a, oid) && ForOlympiad(b, oid)
    ensures ForOlympiad(a + b, oid)
    ensures GrantAll(certs, a + b, oid) == GrantAll(GrantAll(certs, a, oid), b, oid)
    decreases |a|
  {
    if a != [] {
      assert (a + b)[0] == a[0] && (a + b)[1..] == a[1..] + b;
      GrantAllAppend(Grant(certs, a[0]), a[1..], b, oid);
    } else {
      assert a + b == b;
    }
  }

  // ------------------------------------------------ the certificate service

  /** The results `issue_olympiad_certificates` looks at: COMPLETED, for the olympiad, at least 70 percent. */
  predicate QualifiesForMedal(r: TestResult, oid: OlympiadId)
  {
    r.olympiadId == oid && r.status == AttemptCompleted && r.percentage >= 70.0
  }

  /** The certificate the service creates: verified, graded by medal, with the type and score left at their defaults. */
  function MedalCertificate(r: TestResult, oid: OlympiadId): Certificate
  {
    Certificate(r.userId, Some(oid), CourseCert, Medal(r.percentage), 0, CertVerified)
  }

  /** The candidates of `issue_olympiad_certificates`, in result order. */
  function MedalCandidates(rs: seq<TestResult>, oid: OlympiadId): (cands: seq<Certificate>)
    ensures ForOlympiad(cands, oid)
  {
    if rs == [] then []
    else (if QualifiesForMedal(rs[0], oid) then [MedalCertificate(rs[0], oid)] else []) + MedalCandidates(rs[1..], oid)
  }

  /** `c` is the medal certificate of a qualified result in `rs`. */
  predicate MedalOf(c: Certificate, rs: seq<TestResult>, oid: OlympiadId)
  {
    exists r :: r in rs && QualifiesForMedal(r, oid) && c == MedalCertificate(r, oid)
  }

  /** The candidates are exactly the medal certificates of the qualified results. */
  lemma {:induction false} MedalCandidatesExact(rs: seq<TestResult>, oid: OlympiadId)
    ensures forall c :: c in MedalCandidates(rs, oid) ==> MedalOf(c, rs, oid)
    ensures forall r :: r in rs && QualifiesForMedal(r, oid) ==> MedalCertificate(r, oid) in MedalCandidates(rs, oid)
  {
    if rs != [] {
      var rest := MedalCandidates(rs[1..], oid);
      var head := if QualifiesForMedal(rs[0], oid) then [MedalCertificate(rs[0], oid)] else [];
      assert MedalCandidates(rs, oid) == head + rest;
      assert rs == [rs[0]] + rs[1..];
      MedalCandidatesExact(rs[1..], oid);
      forall c | c in head + rest ensures MedalOf(c, rs, oid) {
        if c in head {
          assert rs[0] in rs && QualifiesForMedal(rs[0], oid) && c == MedalCertificate(rs[0], oid);
        } else {
          var r :| r in rs[1..] && QualifiesForMedal(r, oid) && c == MedalCertificate(r, oid);
          assert r in rs;
        }
      }
      forall r | r in rs && QualifiesForMedal(r, oid) ensures MedalCertificate(r, oid) in head + rest {
        if r != rs[0] {
          assert r in rs[1..];
        }
      }
    }
  }

  lemma MedalStep(certs: seq<Certificate>, rs: seq<TestResult>, i: nat, oid: OlympiadId)
    requires i < |rs|
    ensures GrantAll(certs, MedalCandidates(rs[i..], oid), oid)
      == GrantAll(if QualifiesForMedal(rs[i], oid) then Grant(certs, MedalCertificate(rs[i], oid)) else certs,
                  MedalCandidates(rs[i + 1..], oid), oid)
  {
    assert rs[i..][0] == rs[i] && rs[i..][1..] == rs[i + 1..];
    var rest := MedalCandidates(rs[i + 1..], oid);
    if QualifiesForMedal(rs[i], oid) {
      var cands := [MedalCertificate(rs[i], oid)] + rest;
      assert cands[0] == MedalCertificate(rs[i], oid) && cands[1..] == rest;
    } else {
      assert [] + rest == rest;
    }
  }

  /**
   * After the service, every qualified result's user holds a certificate for
   * the olympiad, and every certificate it added is the medal certificate of
   * a qualified result.
   */
  lemma IssueCoversQualified(certs: seq<Certificate>, rs: seq<TestResult>, oid: OlympiadId)
    ensures forall r :: r in rs && QualifiesForMedal(r, oid) ==> HoldsIn(GrantAll(certs, MedalCandidates(rs, oid), oid), r.userId, oid)
    ensures var after := GrantAll(certs, MedalCandidates(rs, oid), oid);
      forall k :: |certs| <= k < |after| ==> MedalOf(after[k], rs, oid)
  {
    var cands := MedalCandidates(rs, oid);
    MedalCandidatesExact(rs, oid);
    GrantAllCovers(certs, cands, oid);
    GrantAllAppendsCandidates(certs, cands, oid);
  }

  // ---------------------------------------------------- the signal routine

  /** The results `create_olympiad_certificates` looks at: COMPLETED, for the olympiad. */
  predicate CompletedFor(r: TestResult, oid: OlympiadId)
  {
    r.olympiadId == oid && r.status == AttemptCompleted
  }

  /** The certificate for a completed result: a diploma from 90 percent, else an olympiad certificate, graded by the percentage. */
  function CompletionCertificate(r: TestResult, oid: OlympiadId): (c: Certificate)
    ensures c.certType == Diploma <==> r.percentage >= 90.0
    ensures c.status == CertVerified && c.score == r.score && c.user == r.userId
  {
    Certificate(r.userId, Some(oid), if r.percentage >= 90.0 then Diploma else OlympiadCert,
                PercentGrade(r.percentage), r.score, CertVerified)
  }

  /** The candidates of the first pass of `create_olympiad_certificates`, in result order. */
  function CompletionCandidates(rs: seq<TestResult>, oid: OlympiadId): (cands: seq<Certificate>)
    ensures ForOlympiad(cands, oid)
  {
    if rs == [] then []
    else (if CompletedFor(rs[0], oid) then [CompletionCertificate(rs[0], oid)] else []) + CompletionCandidates(rs[1..], oid)
  }

  /** `c` is the completion certificate of a completed result in `rs`. */
  predicate CompletionOf(c: Certificate, rs: seq<TestResult>, oid: OlympiadId)
  {
    exists r :: r in rs && CompletedFor(r, oid) && c == CompletionCertificate(r, oid)
  }

  /** The first pass's candidates are exactly the completion certificates of the completed results. */
  lemma {:induction false} CompletionCandidatesExact(rs: seq<TestResult>, oid: OlympiadId)
    ensures forall c :: c in CompletionCandidates(rs, oid) ==> CompletionOf(c, rs, oid)
    ensures forall r :: r in rs && CompletedFor(r, oid) ==> CompletionCertificate(r, oid) in CompletionCandidates(rs, oid)
  {
    if rs != [] {
      var rest := CompletionCandidates(rs[1..], oid);
      var head := if CompletedFor(rs[0], oid) then [CompletionCertificate(rs[0], oid)] else [];
      assert CompletionCandidates(rs, oid) == head + rest;
      assert rs == [rs[0]] + rs[1..];
      CompletionCandidatesExact(rs[1..], oid);
      forall c | c in head + rest ensures CompletionOf(c, rs, oid) {
        if c in head {
          assert rs[0] in rs && CompletedFor(rs[0], oid) && c == CompletionCertificate(rs[0], oid);
        } else {
          var r :| r in rs[1..] && CompletedFor(r, oid) && c == CompletionCertificate(r, oid);
          assert r in rs;
        }
      }
      forall r | r in rs && CompletedFor(r, oid) ensures CompletionCertificate(r, oid) in head + rest {
        if r != rs[0] {
          assert r in rs[1..];
        }
      }
    }
  }

  lemma CompletionStep(certs: seq<Certificate>, rs: seq<TestResult>, i: nat, oid: OlympiadId)
    requires i < |rs|
    ensures GrantAll(certs, CompletionCandidates(rs[i..], oid), oid)
      == GrantAll(if CompletedFor(rs[i], oid) then Grant(certs, CompletionCertificate(rs[i], oid)) else certs,
                  CompletionCandidates(rs[i + 1..], oid), oid)
  {
    assert rs[i..][0] == rs[i] && rs[i..][1..] == rs[i + 1..];
    var rest := CompletionCandidates(rs[i + 1..], oid);
    if CompletedFor(rs[i], oid) {
      var cands := [CompletionCertificate(rs[i], oid)] + rest;
      assert cands[0] == CompletionCertificate(rs[i], oid) && cands[1..] == rest;
    } else {
      assert [] + rest == rest;
    }
  }

  /** The users with a completed result for the olympiad, whom the participation pass excludes. */
  function CompletedUsers(rs: seq<TestResult>, oid: OlympiadId): set<UserId>
  {
    set r | r in rs && CompletedFor(r, oid) :: r.userId
  }

  /** The participation certificate: an olympiad certificate with score 0. */
  function ParticipationCertificate(uid: UserId, oid: OlympiadId): Certificate
  {
    Certificate(uid, Some(oid), OlympiadCert, Participated, 0, CertVerified)
  }

  /** Whether a registration row is one the participation pass visits. */
  predicate Participant(reg: (UserId, OlympiadId), oid: OlympiadId, done: set<UserId>)
  {
    reg.1 == oid && reg.0 !in done
  }

  /** The candidates of the second pass, in registration order. */
  function ParticipationCandidates(regs: seq<(UserId, OlympiadId)>, oid: OlympiadId, done: set<UserId>): (cands: seq<Certificate>)
    ensures ForOlympiad(cands, oid)
  {
    if regs == [] then []
    else (if Participant(regs[0], oid, done) then [ParticipationCertificate(regs[0].0, oid)] else [])
         + ParticipationCandidates(regs[1..], oid, done)
  }

  /** `c` is the participation certificate of a registered user outside `done`. */
  predicate ParticipationOf(c: Certificate, regs: seq<(UserId, OlympiadId)>, oid: OlympiadId, done: set<UserId>)
  {
    exists reg :: reg in regs && Participant(reg, oid, done) && c == ParticipationCertificate(reg.0, oid)
  }

  /** The second pass's candidates are exactly the participation certificates of the registered users outside `done`. */
  lemma {:induction false} ParticipationCandidatesExact(regs: seq<(UserId, OlympiadId)>, oid: OlympiadId, done: set<UserId>)
    ensures forall c :: c in ParticipationCandidates(regs, oid, done) ==> ParticipationOf(c, regs, oid, done)
    ensures forall reg :: reg in regs && Participant(reg, oid, done) ==>
      ParticipationCertificate(reg.0, oid) in ParticipationCandidates(regs, oid, done)
  {
    if regs != [] {
      var rest := ParticipationCandidates(regs[1..], oid, done);
      var head := if Participant(regs[0], oid, done) then [ParticipationCertificate(regs[0].0, oid)] else [];
      assert ParticipationCandidates(regs, oid, done) == head + rest;
      assert regs == [regs[0]] + regs[1..];
      ParticipationCandidatesExact(regs[1..], oid, done);
      forall c | c in head + rest ensures ParticipationOf(c, regs, oid, done) {
        if c in head {
          assert regs[0] in regs && Participant(regs[0], oid, done) && c == ParticipationCertificate(regs[0].0, oid);
        } else {
          var reg :| reg in regs[1..] && Participant(reg, oid, done) && c == ParticipationCertificate(reg.0, oid);
          assert reg in regs;
        }
      }
      forall reg | reg in regs && Participant(reg, oid, done) ensures ParticipationCertificate(reg.0, oid) in head + rest {
        if reg != regs[0] {
          assert reg in regs[1..];
        }
      }
    }
  }

  lemma ParticipationStep(certs: seq<Certificate>, regs: seq<(UserId, OlympiadId)>, i: nat, oid: OlympiadId, done: set<UserId>)
    requires i < |regs|
    ensures GrantAll(certs, ParticipationCandidates(regs[i..], oid, done), oid)
      == GrantAll(if Participant(regs[i], oid, done) then Grant(certs, ParticipationCertificate(regs[i].0, oid)) else certs,
                  ParticipationCandidates(regs[i + 1..], oid, done), oid)
  {
    assert regs[i..][0] == regs[i] && regs[i..][1..] == regs[i + 1..];
    var rest := ParticipationCandidates(regs[i + 1..], oid, done);
    if Participant(regs[i], oid, done) {
      var cands := [ParticipationCertificate(regs[i].0, oid)] + rest;
      assert cands[0] == ParticipationCertificate(regs[i].0, oid) && cands[1..] == rest;
    } else {
      assert [] + rest == rest;
    }
  }

  /** What `create_olympiad_certificates` grants: the completion certificates, then the participation ones. */
  function SignalCandidates(rs: seq<TestResult>, regs: seq<(UserId, OlympiadId)>, oid: OlympiadId): (cands: seq<Certificate>)
    ensures ForOlympiad(cands, oid)
  {
    CompletionCandidates(rs, oid) + ParticipationCandidates(regs, oid, CompletedUsers(rs, oid))
  }

  /** After the signal routine, every user with a completed result and every other registered user holds a certificate for the olympiad. */
  lemma SignalCoversEveryone(certs: seq<Certificate>, rs: seq<TestResult>, regs: seq<(UserId, OlympiadId)>, oid: OlympiadId)
    ensures forall r :: r in rs && CompletedFor(r, oid) ==> HoldsIn(GrantAll(certs, SignalCandidates(rs, regs, oid), oid), r.userId, oid)
    ensures forall reg :: reg in regs && reg.1 == oid ==> HoldsIn(GrantAll(certs, SignalCandidates(rs, regs, oid), oid), reg.0, oid)
  {
    var cands := SignalCandidates(rs, regs, oid);
    var done := CompletedUsers(rs, oid);
    var a := CompletionCandidates(rs, oid);
    var b := ParticipationCandidates(regs, oid, done);
    var after := GrantAll(certs, cands, oid);
    CompletionCandidatesExact(rs, oid);
    ParticipationCandidatesExact(regs, oid, done);
    GrantAllCovers(certs, cands, oid);
    forall r | r in rs && CompletedFor(r, oid) ensures HoldsIn(after, r.userId, oid) {
      assert CompletionCertificate(r, oid) in cands;
    }
    forall reg | reg in regs && reg.1 == oid ensures HoldsIn(after, reg.0, oid) {
      if reg.0 in done {
        var r :| r in rs && CompletedFor(r, oid) && r.userId == reg.0;
        assert CompletionCertificate(r, oid) in cands;
      } else {
        assert ParticipationCertificate(reg.0, oid) in b;
        assert ParticipationCertificate(reg.0, oid) in cands;
      }
    }
  }

  /** Every certificate the signal routine adds is a completion certificate of a completed result, or a participation certificate of a registered user without one. */
  lemma SignalAddsOnlyCandidates(certs: seq<Certificate>, rs: seq<TestResult>, regs: seq<(UserId, OlympiadId)>, oid: OlympiadId)
    ensures var after := GrantAll(certs, SignalCandidates(rs, regs, oid), oid);
      forall k :: |certs| <= k < |after| ==>
        CompletionOf(after[k], rs, oid) || ParticipationOf(after[k], regs, oid, CompletedUsers(rs, oid))
  {
    var cands := SignalCandidates(rs, regs, oid);
    var done := CompletedUsers(rs, oid);
    CompletionCandidatesExact(rs, oid);
    ParticipationCandidatesExact(regs, oid, done);
    GrantAllAppendsCandidates(certs, cands, oid);
  }

  /**
   * The signal's trigger: on an update, when the stored row was not
   * COMPLETED and the new one is; on a creation, when it is created
   * COMPLETED.  An update whose stored row cannot be read does nothing.
   */
  function TriggersCertificates(hasPk: bool, stored: Option<OlympiadStatus>, status: OlympiadStatus): (b: bool)
    ensures b ==> status == Completed
    ensures hasPk && stored == Some(Completed) ==> !b
    ensures !hasPk ==> (b <==> status == Completed)
  {
    if hasPk then stored.Some? && stored.value != Completed && status == Completed
    else status == Completed
  }

  /** How many of a row's successive saves trigger the routine, starting from the stored status. */
  function TriggerCount(stored: OlympiadStatus, saves: seq<OlympiadStatus>): nat
    decreases |saves|
  {
    if saves == [] then 0
    else (if TriggersCertificates(true, Some(stored), saves[0]) then 1 else 0) + TriggerCount(saves[0], saves[1..])
  }

  /** How many of the saves leave the row in a status other than COMPLETED. */
  function Reopenings(saves: seq<OlympiadStatus>): nat
  {
    if saves == [] then 0 else (if saves[0] != Completed then 1 else 0) + Reopenings(saves[1..])
  }

  /** Each trigger needs a save that moves the row away from COMPLETED first, so a row re-saved while completed never re-issues. */
  lemma {:induction false} TriggersNeedReopening(stored: OlympiadStatus, saves: seq<OlympiadStatus>)
    ensures TriggerCount(stored, saves) <= (if stored == Completed then 0 else 1) + Reopenings(saves)
    decreases |saves|
  {
    if saves != [] {
      TriggersNeedReopening(saves[0], saves[1..]);
    }
  }

  // ----------------------------------------------------------- the table

  /** The certificates table. */
  class CertificateStore {
    var certificates: seq<Certificate>

    constructor(certificates: seq<Certificate>)
      ensures this.certificates == certificates
    {
      this.certificates := certificates;
    }

    /**
     * `issue_olympiad_certificates`: an unknown olympiad is an error and
     * changes nothing; otherwise the qualified results are granted a medal
     * certificate in order, and the count of those created is returned.
     */
    method IssueOlympiadCertificates(olympiads: set<OlympiadId>, oid: OlympiadId, results: seq<TestResult>)
      returns (issued: Option<nat>)
      modifies this
      ensures oid !in olympiads ==> issued.None? && certificates == old(certificates)
      ensures oid in olympiads ==>
        certificates == GrantAll(old(certificates), MedalCandidates(results, oid), oid)
        && issued == Some(|certificates| - |old(certificates)|)
      ensures OnePerOlympiad(old(certificates)) ==> OnePerOlympiad(certificates)
    {
      if oid !in olympiads {
        return None;
      }
      ghost var start := certificates;
      var count := 0;
      var i := 0;
      while i < |results|
        invariant 0 <= i <= |results|
        invariant GrantAll(certificates, MedalCandidates(results[i..], oid), oid)
                  == GrantAll(start, MedalCandidates(results, oid), oid)
        invariant |certificates| == |start| + count
      {
        MedalStep(certificates, results, i, oid);
        var added := IssueMedal(results[i], oid);
        if added {
          count := count + 1;
        }
        i := i + 1;
      }
      assert results[|results|..] == [];
      if OnePerOlympiad(start) {
        GrantAllKeepsOnePerOlympiad(start, MedalCandidates(results, oid), oid);
      }
      return Some(count);
    }

    /** One step of the loop: a qualified result's medal certificate is created unless its holder already has one. */
    method IssueMedal(r: TestResult, oid: OlympiadId) returns (added: bool)
      modifies this
      ensures certificates == if QualifiesForMedal(r, oid) then Grant(old(certificates), MedalCertificate(r, oid)) else old(certificates)
      ensures |certificates| == |old(certificates)| + (if added then 1 else 0)
    {
      added := false;
      if QualifiesForMedal(r, oid) {
        var c := MedalCertificate(r, oid);
        if !HoldsIn(certificates, r.userId, oid) {
          certificates := certificates + [c];
          added := true;
        }
      }
    }

    /**
     * `create_olympiad_certificates`: completed results first, then every
     * other registered user, each granted unless already holding one.
     */
    method CreateOlympiadCertificates(oid: OlympiadId, results: seq<TestResult>, regs: seq<(UserId, OlympiadId)>)
      modifies this
      ensures certificates == GrantAll(old(certificates), SignalCandidates(results, regs, oid), oid)
      ensures OnePerOlympiad(old(certificates)) ==> OnePerOlympiad(certificates)
    {
      ghost var start := certificates;
      GrantCompletions(oid, results);
      var done := CompletedUsers(results, oid);
      GrantParticipations(oid, regs, done);
      GrantAllAppend(start, CompletionCandidates(results, oid), ParticipationCandidates(regs, oid, done), oid);
    }

    /** The first pass: each completed result's user is granted a completion certificate. */
    method GrantCompletions(oid: OlympiadId, results: seq<TestResult>)
      modifies this
      ensures certificates == GrantAll(old(certificates), CompletionCandidates(results, oid), oid)
      ensures OnePerOlympiad(old(certificates)) ==> OnePerOlympiad(certificates)
    {
      ghost var start := certificates;
      var i := 0;
      while i < |results|
        invariant 0 <= i <= |results|
        invariant GrantAll(certificates, CompletionCandidates(results[i..], oid), oid)
                  == GrantAll(start, CompletionCandidates(results, oid), oid)
      {
        var r := results[i];
        CompletionStep(certificates, results, i, oid);
        if CompletedFor(r, oid) {
          var c := CompletionCertificate(r, oid);
          if !HoldsIn(certificates, r.userId, oid) {
            certificates := certificates + [c];
          }
        }
        i := i + 1;
      }
      assert results[|results|..] == [];
      if OnePerOlympiad(start) {
        GrantAllKeepsOnePerOlympiad(start, CompletionCandidates(results, oid), oid);
      }
    }

    /** The second pass: each registered user outside `done` is granted a participation certificate. */
    method GrantParticipations(oid: OlympiadId, regs: seq<(UserId, OlympiadId)>, done: set<UserId>)
      modifies this
      ensures certificates == GrantAll(old(certificates), ParticipationCandidates(regs, oid, done), oid)
      ensures OnePerOlympiad(old(certificates)) ==> OnePerOlympiad(certificates)
    {
      ghost var start := certificates;
      var i := 0;
      while i < |regs|
        invariant 0 <= i <= |regs|
        invariant GrantAll(certificates, ParticipationCandidates(regs[i..], oid, done), oid)
                  == GrantAll(start, ParticipationCandidates(regs, oid, done), oid)
      {
        var reg := regs[i];
        ParticipationStep(certificates, regs, i, oid, done);
        if Participant(reg, oid, done) {
          var c := ParticipationCertificate(reg.0, oid);
          if !HoldsIn(certificates, reg.0, oid) {
            certificates := certificates + [c];
          }
        }
        i := i + 1;
      }
      assert regs[|regs|..] == [];
      if OnePerOlympiad(start) {
        GrantAllKeepsOnePerOlympiad(start, ParticipationCandidates(regs, oid, done), oid);
      }
    }

    /** `olympiad_status_change`: the routine runs exactly when the save triggers it. */
    method OnOlympiadSave(hasPk: bool, stored: Option<OlympiadStatus>, status: OlympiadStatus, oid: OlympiadId,
                          results: seq<TestResult>, regs: seq<(UserId, OlympiadId)>)
      modifies this
      ensures TriggersCertificates(hasPk, stored, status) ==>
        certificates == GrantAll(old(certificates), SignalCandidates(results, regs, oid), oid)
      ensures !TriggersCertificates(hasPk, stored, status) ==> certificates == old(certificates)
    {
      if TriggersCertificates(hasPk, stored, status) {
        CreateOlympiadCertificates(oid, results, regs);
      }
    }
  }

  // ------------------------------------------------------- course stats

  /** The sum of the lessons' `video_duration`, 0 for none. */
  function TotalSeconds(lessons: seq<LessonFacts>): int
  {
    if lessons == [] then 0 else lessons[0].videoDuration + TotalSeconds(lessons[1..])
  }

  lemma {:induction false} TotalSecondsAppend(a: seq<LessonFacts>, l: LessonFacts)
    ensures TotalSeconds(a + [l]) == TotalSeconds(a) + l.videoDuration
  {
    if a == [] {
      assert [l][1..] == [];
    } else {
      assert (a + [l])[1..] == a[1..] + [l];
      TotalSecondsAppend(a[1..], l);
    }
  }

  datatype CourseStats = CourseStats(lessonsCount: nat, minutes: int, duration: string)

  /**
   * `update_course_stats`: the number of the course's lessons and their
   * total video time in whole minutes, rounded down, shown as "<n> min".
   */
  function UpdateCourseStats(lessons: seq<LessonFacts>): (s: CourseStats)
    ensures s.lessonsCount == |lessons|
    ensures s.minutes * 60 <= TotalSeconds(lessons) < s.minutes * 60 + 60
    ensures s.duration == IntToString(s.minutes) + " min"
  {
    var m := TotalSeconds(lessons) / 60;
    CourseStats(|lessons|, m, IntToString(m) + " min")
  }

  /** A new lesson raises the count by one and the minutes by at most its own length rounded up. */
  lemma AddingALesson(lessons: seq<LessonFacts>, l: LessonFacts)
    requires l.videoDuration >= 0
    ensures UpdateCourseStats(lessons + [l]).lessonsCount == UpdateCourseStats(lessons).lessonsCount + 1
    ensures UpdateCourseStats(lessons).minutes <= UpdateCourseStats(lessons + [l]).minutes
            <= UpdateCourseStats(lessons).minutes + l.videoDuration / 60 + 1
  {
    TotalSecondsAppend(lessons, l);
  }
}
