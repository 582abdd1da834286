/** `processClaims` and the start-up around it: parse the key file, shuffle
    the keys, then take the keys one at a time, stopping only when an
    uncaught error escapes. */
module Batch {
  import opened Claims
  import KeyList
  import Shuffle

  datatype Report = Report(key: string, outcome: Outcome)

  /** What a run leaves behind: one report per credential processed, every
      transaction handed to `sendTransaction` in order, and the number of
      pacing delays waited. */
  datatype BatchResult = BatchResult(reports: seq<Report>, sent: seq<Transaction>, waits: nat)

  /** Number of reports whose credential had a transaction sent. */
  function CountAttempted(reports: seq<Report>): (n: nat) {
    if reports == [] then 0
    else (if Attempted(reports[0].outcome) then 1 else 0) + CountAttempted(reports[1..])
  }

  /** Number of the first n steps that are followed by a pacing delay. */
  function CountPaced(steps: seq<Step>, n: nat): (c: nat)
    requires n <= |steps|
  {
    if n == 0 then 0
    else CountPaced(steps, n - 1) + (if steps[n - 1].paced then 1 else 0)
  }

  /** The transactions of the first n steps, step by step in order. */
  function SentOf(steps: seq<Step>, n: nat): (txs: seq<Transaction>)
    requires n <= |steps|
  {
    if n == 0 then []
    else SentOf(steps, n - 1) + steps[n - 1].sent
  }

  /** The step each credential would take, given the answers for it alone. */
  function Steps(mint: Address, responses: seq<Responses>): (steps: seq<Step>)
    ensures |steps| == |responses|
    ensures forall k :: 0 <= k < |responses| ==> steps[k] == ProcessCredential(mint, responses[k])
  {
    seq(|responses|, k requires 0 <= k < |responses| => ProcessCredential(mint, responses[k]))
  }

  /** The `for ... of` loop of `processClaims` over `keys`, where `steps[k]`
      is what processing `keys[k]` does. */
  function ProcessClaims(keys: seq<string>, steps: seq<Step>): (b: BatchResult)
    requires |steps| == |keys|
    // the credentials are processed in order, each exactly once, with the
    // outcome of its own step
    ensures |b.reports| <= |keys|
    ensures forall k :: 0 <= k < |b.reports| ==> b.reports[k] == Report(keys[k], steps[k].outcome)
    // only an uncaught error stops the loop early, and it stops it at once
    ensures forall k :: 0 <= k < |b.reports| - 1 ==> !b.reports[k].outcome.Aborted?
    ensures |b.reports| < |keys| ==>
      |b.reports| > 0 && b.reports[|b.reports| - 1].outcome.Aborted?
  {
    if keys == [] then BatchResult([], [], 0)
    else
      var s := steps[0];
      var here := Report(keys[0], s.outcome);
      if s.outcome.Aborted? then
        BatchResult([here], s.sent, if s.paced then 1 else 0)
      else
        var rest := ProcessClaims(keys[1..], steps[1..]);
        var b := BatchResult([here] + rest.reports, s.sent + rest.sent,
                             (if s.paced then 1 else 0) + rest.waits);
        assert b.reports[1..] == rest.reports;
        b
  }

  /** A credential that does not abort is followed by the rest of the run. */
  lemma ProcessClaimsCons(keys: seq<string>, steps: seq<Step>)
    requires |steps| == |keys| > 0 && !steps[0].outcome.Aborted?
    ensures var b := ProcessClaims(keys, steps);
      var rest := ProcessClaims(keys[1..], steps[1..]);
      && b.reports == [Report(keys[0], steps[0].outcome)] + rest.reports
      && b.sent == steps[0].sent + rest.sent
      && b.waits == (if steps[0].paced then 1 else 0) + rest.waits
  {
  }

  /** One transaction is sent per credential that reached submission. */
  lemma {:induction false} SentCount(keys: seq<string>, steps: seq<Step>)
    requires |steps| == |keys|
    requires forall k :: 0 <= k < |steps| ==> WellFormedStep(steps[k])
    ensures var b := ProcessClaims(keys, steps);
      |b.sent| == CountAttempted(b.reports)
    decreases |keys|
  {
    if keys == [] {
    } else if steps[0].outcome.Aborted? {
      assert WellFormedStep(steps[0]);
    } else {
      var rest := ProcessClaims(keys[1..], steps[1..]);
      assert forall k :: 0 <= k < |steps| - 1 ==> steps[1..][k] == steps[k + 1];
      SentCount(keys[1..], steps[1..]);
      assert WellFormedStep(steps[0]);
      ProcessClaimsCons(keys, steps);
      assert ProcessClaims(keys, steps).reports[1..] == rest.reports;
    }
  }

  /** One delay is waited per processed credential whose step is followed by
      a delay. */
  lemma {:induction false} WaitCount(keys: seq<string>, steps: seq<Step>)
    requires |steps| == |keys|
    ensures var b := ProcessClaims(keys, steps);
      b.waits == CountPaced(steps, |b.reports|)
    decreases |keys|
  {
    if keys == [] {
    } else if steps[0].outcome.Aborted? {
      assert |ProcessClaims(keys, steps).reports| == 1;
    } else {
      var rest := ProcessClaims(keys[1..], steps[1..]);
      WaitCount(keys[1..], steps[1..]);
      CountPacedShift(steps, |rest.reports|);
      ProcessClaimsCons(keys, steps);
    }
  }

  /** The transactions handed to `sendTransaction` are those of the
      processed credentials, credential by credential in processing order. */
  lemma {:induction false} SentInOrder(keys: seq<string>, steps: seq<Step>)
    requires |steps| == |keys|
    ensures var b := ProcessClaims(keys, steps);
      b.sent == SentOf(steps, |b.reports|)
    decreases |keys|
  {
    if keys == [] {
    } else if steps[0].outcome.Aborted? {
      assert |ProcessClaims(keys, steps).reports| == 1;
      assert SentOf(steps, 1) == steps[0].sent;
    } else {
      var rest := ProcessClaims(keys[1..], steps[1..]);
      SentInOrder(keys[1..], steps[1..]);
      SentOfShift(steps, |rest.reports|);
      ProcessClaimsCons(keys, steps);
    }
  }

  lemma {:induction false} SentOfShift(steps: seq<Step>, n: nat)
    requires n < |steps|
    ensures SentOf(steps, n + 1) == steps[0].sent + SentOf(steps[1..], n)
  {
    if n > 0 {
      SentOfShift(steps, n - 1);
      assert steps[1..][n - 1] == steps[n];
      assert SentOf(steps, n + 1) == (steps[0].sent + SentOf(steps[1..], n - 1)) + steps[n].sent;
    }
  }

  lemma {:induction false} CountPacedShift(steps: seq<Step>, n: nat)
    requires n < |steps|
    ensures CountPaced(steps, n + 1) ==
      (if steps[0].paced then 1 else 0) + CountPaced(steps[1..], n)
  {
    if n > 0 {
      CountPacedShift(steps, n - 1);
      assert steps[1..][n - 1] == steps[n];
    }
  }

  predicate NoneAborts(steps: seq<Step>) {
    forall k :: 0 <= k < |steps| ==> !steps[k].outcome.Aborted?
  }

  /** Failure isolation: when no credential raises an uncaught error, every
      credential is processed, whatever became of the others (ineligible,
      already claimed, failed account check, failed submission). */
  lemma {:induction false} RunsToCompletion(keys: seq<string>, steps: seq<Step>)
    requires |steps| == |keys|
    requires NoneAborts(steps)
    ensures |ProcessClaims(keys, steps).reports| == |keys|
    decreases |keys|
  {
    if keys != [] {
      assert !steps[0].outcome.Aborted?;
      assert forall k :: 0 <= k < |steps| - 1 ==> steps[1..][k] == steps[k + 1];
      RunsToCompletion(keys[1..], steps[1..]);
    }
  }

  /** The first credential whose processing throws is the last one processed. */
  lemma {:induction false} StopsAtFirstAbort(keys: seq<string>, steps: seq<Step>, k: nat)
    requires |steps| == |keys|
    requires k < |keys| && steps[k].outcome.Aborted?
    requires NoneAborts(steps[..k])
    ensures |ProcessClaims(keys, steps).reports| == k + 1
    decreases k
  {
    if k > 0 {
      assert steps[..k][0] == steps[0];
      var tail := steps[1..];
      assert tail[k - 1] == steps[k];
      assert tail[..k - 1] == steps[..k][1..];
      assert forall i :: 0 <= i < |tail| ==> tail[i] == steps[i + 1];
      StopsAtFirstAbort(keys[1..], tail, k - 1);
    }
  }

  /** The whole program: the key file's text, the random draws of the shuffle,
      and the answers for each credential in processing order, with the
      airdropped token's mint fixed. */
  function Run(content: string, rolls: seq<real>, responses: seq<Responses>): (b: BatchResult)
    requires Shuffle.ValidDraws(rolls)
    requires |KeyList.ParseKeys(content)| <= |rolls| + 1
    requires |responses| == |KeyList.ParseKeys(content)|
    // no key is processed more often than the file lists it
    ensures multiset(ReportKeys(b.reports)) <= multiset(KeyList.ParseKeys(content))
    // each processed credential's outcome is decided by its own answers
    ensures |b.reports| <= |responses|
    ensures forall k :: 0 <= k < |b.reports| ==>
      b.reports[k].outcome == ProcessCredential(TokenId, responses[k]).outcome
  {
    var order := Shuffle.FisherYates(KeyList.ParseKeys(content), rolls);
    var b := ProcessClaims(order, Steps(TokenId, responses));
    ProcessedSubMultiset(order, Steps(TokenId, responses));
    b
  }

  /** Changing the answers for one credential changes no other credential's
      outcome, as long as both runs reach that other credential. */
  lemma OutcomesIndependent(mint: Address, order: seq<string>, responses: seq<Responses>,
                            j: nat, other: Responses, k: nat)
    requires |responses| == |order| && j < |order| && k != j
    requires k < |ProcessClaims(order, Steps(mint, responses)).reports|
    requires k < |ProcessClaims(order, Steps(mint, responses[j := other])).reports|
    ensures ProcessClaims(order, Steps(mint, responses)).reports[k] ==
      ProcessClaims(order, Steps(mint, responses[j := other])).reports[k]
  {
    var steps := Steps(mint, responses);
    var steps' := Steps(mint, responses[j := other]);
    assert steps[k] == steps'[k];
  }

  function ReportKeys(reports: seq<Report>): (ks: seq<string>)
    ensures |ks| == |reports|
    ensures forall k :: 0 <= k < |reports| ==> ks[k] == reports[k].key
  {
    if reports == [] then [] else [reports[0].key] + ReportKeys(reports[1..])
  }

  /** The processed keys are a prefix of the processing order. */
  lemma ProcessedPrefix(order: seq<string>, steps: seq<Step>)
    requires |steps| == |order|
    ensures var n := |ProcessClaims(order, steps).reports|;
      ReportKeys(ProcessClaims(order, steps).reports) == order[..n]
  {
  }

  /** No key is processed more often than it occurs in the processing order. */
  lemma ProcessedSubMultiset(order: seq<string>, steps: seq<Step>)
    requires |steps| == |order|
    ensures multiset(ReportKeys(ProcessClaims(order, steps).reports)) <= multiset(order)
  {
    ProcessedPrefix(order, steps);
    PrefixSubMultiset(order, |ProcessClaims(order, steps).reports|);
  }

  lemma PrefixSubMultiset<T>(s: seq<T>, n: nat)
    requires n <= |s|
    ensures multiset(s[..n]) <= multiset(s)
  {
    assert s == s[..n] + s[n..];
  }

  /** Without an uncaught error, the processed keys are exactly the keys in
      processing order. */
  lemma ProcessesEveryKey(order: seq<string>, steps: seq<Step>)
    requires |steps| == |order|
    requires NoneAborts(steps)
    ensures ReportKeys(ProcessClaims(order, steps).reports) == order
  {
    RunsToCompletion(order, steps);
    ProcessedPrefix(order, steps);
  }

  /** Without an uncaught error, every key of the file is processed exactly as
      often as it is listed: the processed keys are a permutation of the
      parsed keys. */
  lemma RunProcessesEveryKey(content: string, rolls: seq<real>, responses: seq<Responses>)
    requires Shuffle.ValidDraws(rolls)
    requires |KeyList.ParseKeys(content)| <= |rolls| + 1
    requires |responses| == |KeyList.ParseKeys(content)|
    requires NoneAborts(Steps(TokenId, responses))
    ensures multiset(ReportKeys(Run(content, rolls, responses).reports)) ==
      multiset(KeyList.ParseKeys(content))
  {
    var keys := KeyList.ParseKeys(content);
    ProcessesEveryKey(Shuffle.FisherYates(keys, rolls), Steps(TokenId, responses));
  }
}
