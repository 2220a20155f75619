/** The export gate in plain conditions on a case record. */
module GateInWords {
  import opened Options
  import opened StableHash
  import opened MotionGate
  import opened MotionStore
  import opened RejectedClaims

  // ----- Trimming

  predicate AllSpace(text: Text) {
    forall i :: 0 <= i < |text| ==> IsJsSpace(text[i])
  }

  /** `core` is the text without the white space around it. */
  ghost predicate IsTrimmed(text: Text, core: Text) {
    && (core == [] || (!IsJsSpace(core[0]) && !IsJsSpace(core[|core| - 1])))
    && exists lead, trail :: AllSpace(lead) && AllSpace(trail) && text == lead + core + trail
  }

  lemma TrimSpace(text: Text)
    requires AllSpace(text)
    ensures Trim(text) == []
    decreases |text|
  {
    hide IsJsSpace;
    if text != [] {
      TrimSpace(text[1..]);
    }
  }

  lemma {:induction false} TrimAround(lead: Text, core: Text, trail: Text)
    requires AllSpace(lead) && AllSpace(trail)
    requires core != [] && !IsJsSpace(core[0]) && !IsJsSpace(core[|core| - 1])
    ensures Trim(lead + core + trail) == core
    decreases |lead| + |trail|
  {
    hide IsJsSpace;
    var text := lead + core + trail;
    if lead != [] {
      assert text[0] == lead[0] && text[1..] == lead[1..] + core + trail;
      TrimAround(lead[1..], core, trail);
    } else if trail != [] {
      var shorter := trail[..|trail| - 1];
      assert text[0] == core[0] && text[|text| - 1] == trail[|trail| - 1];
      assert text[..|text| - 1] == lead + core + shorter;
      TrimAround(lead, core, shorter);
    } else {
      assert text == core;
    }
  }

  lemma MoreLead(u: bv16, rest: Text, lead: Text, core: Text, trail: Text)
    requires rest == lead + core + trail && AllSpace(lead) && IsJsSpace(u)
    ensures [u] + rest == ([u] + lead) + core + trail && AllSpace([u] + lead)
  {
    hide IsJsSpace;
  }

  lemma MoreTrail(u: bv16, rest: Text, lead: Text, core: Text, trail: Text)
    requires rest == lead + core + trail && AllSpace(trail) && IsJsSpace(u)
    ensures rest + [u] == lead + core + (trail + [u]) && AllSpace(trail + [u])
  {
    hide IsJsSpace;
  }

  lemma {:induction false} TrimSplits(text: Text) returns (lead: Text, trail: Text)
    ensures AllSpace(lead) && AllSpace(trail) && text == lead + Trim(text) + trail
    ensures Trim(text) == [] || (!IsJsSpace(Trim(text)[0]) && !IsJsSpace(Trim(text)[|Trim(text)| - 1]))
    decreases |text|
  {
    assert AllSpace([]);
    hide IsJsSpace, AllSpace;
    lead, trail := [], [];
    if text != [] {
      if IsJsSpace(text[0]) {
        var rest := text[1..];
        lead, trail := TrimSplits(rest);
        MoreLead(text[0], rest, lead, Trim(rest), trail);
        assert text == [text[0]] + rest;
        lead := [text[0]] + lead;
      } else if IsJsSpace(text[|text| - 1]) {
        var rest, last := text[..|text| - 1], text[|text| - 1];
        lead, trail := TrimSplits(rest);
        MoreTrail(last, rest, lead, Trim(rest), trail);
        assert text == rest + [last];
        trail := trail + [last];
      }
    }
  }

  lemma TrimExactly(text: Text, core: Text)
    ensures IsTrimmed(text, core) <==> core == Trim(text)
  {
    hide IsJsSpace, Trim;
    var lead, trail := TrimSplits(text);
    if IsTrimmed(text, core) {
      var before, after :| AllSpace(before) && AllSpace(after) && text == before + core + after;
      if core == [] {
        assert forall i :: 0 <= i < |text| ==> text[i] == if i < |before| then before[i] else after[i - |before|];
        TrimSpace(text);
      } else {
        TrimAround(before, core, after);
      }
    }
  }

  // ----- The conditions

  /** The motion has eighty units or more without the white space around it. */
  ghost predicate LongEnough(record: Case) {
    exists core :: IsTrimmed(record.currentMotion, core) && |core| >= 80
  }

  /** The last version is the current motion, white space around it aside, and carries the hash of its body and number. */
  ghost predicate SavedAsIs(record: Case) {
    && record.motionVersions != []
    && var last := record.motionVersions[|record.motionVersions| - 1];
       last.mockHash == MotionHash(last.body, last.version)
       && exists core :: IsTrimmed(last.body, core) && IsTrimmed(record.currentMotion, core)
  }

  predicate NineGoodCitations(record: Case) {
    && |record.citations| == 9
    && forall i :: 0 <= i < 9 ==>
         record.citations[i] == Citation(Verified, true, true, true, true, true, true)
  }

  predicate FirstRequiredRejected(record: Case) {
    exists i :: 0 <= i < |record.ethicsArguments| && record.ethicsArguments[i].requiredRejection
                && record.ethicsArguments[i].status == Rejected
                && forall k :: 0 <= k < i ==> !record.ethicsArguments[k].requiredRejection
  }

  predicate AllDecided(record: Case) {
    && |record.ethicsArguments| > 0
    && forall i :: 0 <= i < |record.ethicsArguments| ==>
         record.ethicsArguments[i].status != Pending && record.ethicsArguments[i].status != Revision
  }

  predicate IncludedAreSafe(record: Case) {
    forall i :: 0 <= i < |record.strategies| && record.strategies[i].included ==>
      record.strategies[i].citationStatus == Verified && record.strategies[i].ethicsStatus == ReviewStatus.Approved
  }

  lemma LongEnoughExactly(record: Case)
    ensures MotionExists(record) <==> LongEnough(record)
  {
    hide Trim, IsTrimmed;
    forall core
      ensures IsTrimmed(record.currentMotion, core) <==> core == Trim(record.currentMotion)
    {
      TrimExactly(record.currentMotion, core);
    }
  }

  lemma SavedExactly(record: Case)
    ensures SavedMotionMatches(record) <==> SavedAsIs(record)
  {
    hide Trim, IsTrimmed, MotionHash;
    if record.motionVersions != [] {
      var last := record.motionVersions[|record.motionVersions| - 1];
      TrimExactly(last.body, Trim(last.body));
      TrimExactly(record.currentMotion, Trim(last.body));
      if core :| IsTrimmed(last.body, core) && IsTrimmed(record.currentMotion, core) {
        TrimExactly(last.body, core);
        TrimExactly(record.currentMotion, core);
      }
    }
  }

  lemma CitationsExactly(record: Case)
    ensures CitationsPass(record) <==> NineGoodCitations(record)
  {
    if CitationsPass(record) {
      forall i | 0 <= i < 9
        ensures record.citations[i] == Citation(Verified, true, true, true, true, true, true)
      {
        assert CitationPasses(record.citations[i]);
      }
    }
  }

  lemma ReviewsExactly(record: Case)
    ensures EthicsResolved(record) <==> AllDecided(record)
    ensures UnsafeExcluded(record) <==> IncludedAreSafe(record)
  {
    if EthicsResolved(record) {
      forall i | 0 <= i < |record.ethicsArguments|
        ensures record.ethicsArguments[i].status != Pending && record.ethicsArguments[i].status != Revision
      {
        assert record.ethicsArguments[i] in record.ethicsArguments;
      }
    }
    if UnsafeExcluded(record) {
      forall i | 0 <= i < |record.strategies| && record.strategies[i].included
        ensures !IsUnsafe(record.strategies[i])
      {
        assert record.strategies[i] in record.strategies;
      }
    }
  }

  lemma FirstExactly(record: Case)
    ensures RejectionApplied(record.ethicsArguments) <==> FirstRequiredRejected(record)
  {
    RejectionAppliedExact(record.ethicsArguments);
  }

  lemma BlockerList(record: Case)
    ensures MotionMissing in ApprovalBlockers(record) <==> !MotionExists(record)
    ensures MotionUnsaved in ApprovalBlockers(record) <==> !SavedMotionMatches(record)
    ensures CitationsFail in ApprovalBlockers(record) <==> !CitationsPass(record)
    ensures RejectionMissing in ApprovalBlockers(record) <==> !RejectionApplied(record.ethicsArguments)
    ensures EthicsUnresolved in ApprovalBlockers(record) <==> !EthicsResolved(record)
    ensures UnsafeStrategy in ApprovalBlockers(record) <==> !UnsafeExcluded(record)
    ensures RejectedArgumentPresent in ApprovalBlockers(record) <==> !RejectedAbsent(record)
  {
    hide MotionExists, SavedMotionMatches, CitationsPass, RejectionApplied, EthicsResolved, UnsafeExcluded, RejectedAbsent,
      ApprovalBlockers;
    Listed(record, MotionMissing);
    Listed(record, MotionUnsaved);
    Listed(record, CitationsFail);
    Listed(record, RejectionMissing);
    Listed(record, EthicsUnresolved);
    Listed(record, UnsafeStrategy);
    Listed(record, RejectedArgumentPresent);
  }

  lemma WhenListed(condition: bool, blocker: Blocker, b: Blocker)
    ensures b in When(condition, blocker) <==> condition && b == blocker
  {
  }

  lemma Listed(record: Case, b: Blocker)
    ensures b in ApprovalBlockers(record)
       <==> || (b == MotionMissing && !MotionExists(record))
            || (b == MotionUnsaved && !SavedMotionMatches(record))
            || (b == CitationsFail && !CitationsPass(record))
            || (b == RejectionMissing && !RejectionApplied(record.ethicsArguments))
            || (b == EthicsUnresolved && !EthicsResolved(record))
            || (b == UnsafeStrategy && !UnsafeExcluded(record))
            || (b == RejectedArgumentPresent && !RejectedAbsent(record))
  {
    hide MotionExists, SavedMotionMatches, CitationsPass, RejectionApplied, EthicsResolved, UnsafeExcluded, RejectedAbsent,
      When;
    WhenListed(!MotionExists(record), MotionMissing, b);
    WhenListed(!SavedMotionMatches(record), MotionUnsaved, b);
    WhenListed(!CitationsPass(record), CitationsFail, b);
    WhenListed(!RejectionApplied(record.ethicsArguments), RejectionMissing, b);
    WhenListed(!EthicsResolved(record), EthicsUnresolved, b);
    WhenListed(!UnsafeExcluded(record), UnsafeStrategy, b);
    WhenListed(!RejectedAbsent(record), RejectedArgumentPresent, b);
  }

  /** A case can be approved exactly when all seven conditions hold, and each one missing is reported by its own blocker. */
  lemma ApprovableInWords(record: Case)
    ensures Approvable(record)
       <==> LongEnough(record) && SavedAsIs(record) && NineGoodCitations(record) && FirstRequiredRejected(record)
            && AllDecided(record) && IncludedAreSafe(record) && NoRejectedClaim(record)
    ensures MotionMissing in ApprovalBlockers(record) <==> !LongEnough(record)
    ensures MotionUnsaved in ApprovalBlockers(record) <==> !SavedAsIs(record)
    ensures CitationsFail in ApprovalBlockers(record) <==> !NineGoodCitations(record)
    ensures RejectionMissing in ApprovalBlockers(record) <==> !FirstRequiredRejected(record)
    ensures EthicsUnresolved in ApprovalBlockers(record) <==> !AllDecided(record)
    ensures UnsafeStrategy in ApprovalBlockers(record) <==> !IncludedAreSafe(record)
    ensures RejectedArgumentPresent in ApprovalBlockers(record) <==> !NoRejectedClaim(record)
  {
    hide MotionExists, SavedMotionMatches, CitationsPass, RejectionApplied, EthicsResolved, UnsafeExcluded, RejectedAbsent,
      LongEnough, SavedAsIs, NineGoodCitations, FirstRequiredRejected, AllDecided, IncludedAreSafe, NoRejectedClaim,
      ApprovalBlockers;
    LongEnoughExactly(record);
    SavedExactly(record);
    CitationsExactly(record);
    FirstExactly(record);
    ReviewsExactly(record);
    GateOnClaims(record);
    BlockerList(record);
  }
}
