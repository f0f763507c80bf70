/** app/api/dashboard/metrics/route.ts: the dashboard's case counts (GET). */
module MetricsRoute {
  import opened Text
  import opened Http
  import opened CaseModel

  datatype Metrics = Metrics(totalCases: nat, disposedCases: nat, pendingCases: nat)

  /** `Case.countDocuments({ status })`. */
  function CountStatus(cases: seq<Case>, status: CaseStatus): (n: nat)
    ensures n <= |cases|
    ensures n == |cases| <==> forall i :: 0 <= i < |cases| ==> cases[i].status == status
  {
    if cases == [] then 0
    else
      CountStatus(cases[1..], status) + (if cases[0].status == status then 1 else 0)
  }

  /** Every case is either PENDING or DISPOSED, so the two counts add up to
      the total. */
  lemma {:induction false} CountsPartition(cases: seq<Case>)
    ensures CountStatus(cases, Pending) + CountStatus(cases, CaseStatus.Disposed) == |cases|
  {
    if cases != [] {
      CountsPartition(cases[1..]);
    }
  }

  /** GET: no session gives 401; otherwise the number of all cases, of the
      DISPOSED ones and of the PENDING ones. Nothing is written. */
  function Get(actor: Option<Actor>, cases: seq<Case>): (r: Response<Metrics>)
    ensures r.Unauthorized? <==> actor.None?
    ensures r.Ok? <==> actor.Some?
    ensures r.Ok? ==>
      && r.value.totalCases == |cases|
      && r.value.disposedCases == CountStatus(cases, CaseStatus.Disposed)
      && r.value.pendingCases == CountStatus(cases, Pending)
      && r.value.totalCases == r.value.disposedCases + r.value.pendingCases
  {
    if actor.None? then Unauthorized
    else
      CountsPartition(cases);
      Ok(Metrics(|cases|, CountStatus(cases, CaseStatus.Disposed), CountStatus(cases, Pending)))
  }
}
