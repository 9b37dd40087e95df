/**
 A completed `CompletableResultCode`. The model looks only at the outcome a
 token eventually settles on; pending state, callbacks and blocking `join`
 are not part of it.
 */
module CompletableResult {

  datatype ResultCode = Succeeded | Failed

  /** The token a reader hands back for one call, from whether that call succeeded. */
  function OfOutcome(ok: bool): (r: ResultCode)
    ensures r == Succeeded <==> ok
  {
    if ok then Succeeded else Failed
  }

  /**
   The aggregate token `ofAll`, once settled: it succeeds exactly when every
   constituent succeeds, and fails when any constituent fails. The token
   completes only once every constituent has completed; that timing is not
   part of this model.
   */
  function OfAll(codes: seq<ResultCode>): (r: ResultCode)
    ensures r == Succeeded <==> forall i :: 0 <= i < |codes| ==> codes[i] == Succeeded
    decreases |codes|
  {
    if |codes| == 0 then Succeeded
    else if codes[0] == Failed then Failed
    else OfAll(codes[1..])
  }

  /** A failed constituent fails the aggregate wherever it is listed. */
  lemma FailureCarriesOver(a: seq<ResultCode>, b: seq<ResultCode>)
    requires multiset(a) == multiset(b)
    ensures OfAll(a) == Failed ==> OfAll(b) == Failed
  {
    if OfAll(a) == Failed {
      var i :| 0 <= i < |a| && a[i] == Failed;
      assert a[i] in multiset(b);
    }
  }

  /** The aggregate does not depend on the order in which constituents are listed. */
  lemma OfAllIgnoresOrder(a: seq<ResultCode>, b: seq<ResultCode>)
    requires multiset(a) == multiset(b)
    ensures OfAll(a) == OfAll(b)
  {
    FailureCarriesOver(a, b);
    FailureCarriesOver(b, a);
  }

  /** One token per reader, from the caller-supplied per-reader outcome. */
  function ReaderCodes(n: nat, succeeds: nat -> bool): (codes: seq<ResultCode>)
    ensures |codes| == n
    ensures forall i :: 0 <= i < n ==> (codes[i] == Succeeded <==> succeeds(i))
  {
    seq(n, i requires 0 <= i < n => OfOutcome(succeeds(i)))
  }
}
