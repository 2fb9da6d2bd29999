/** What the dashboard route does once a request is through the gate: serve
    a bundled asset, or render the index page with job counts by status and
    the leader's name. */
module Dashboard {
  import opened Wrappers
  import opened Handlers

  const StatusSuccess: string := "success"
  const StatusFailed: string := "failed"
  /** A job that never ran has an empty status. */
  const StatusUntriggered: string := ""

  const NoLeader: string := "no leader"

  /** A job as the store lists it; only its last-run status matters here. */
  datatype Job = Job(status: string)

  /** A cluster member as the leader lookup returns it. */
  datatype Member = Member(name: string)

  /** Reference count: how many of the jobs carry `status`. */
  function Tally(jobs: seq<Job>, status: string): nat {
    if |jobs| == 0 then 0
    else Tally(jobs[..|jobs| - 1], status) + (if jobs[|jobs| - 1].status == status then 1 else 0)
  }

  /** The three counters of the loop over the jobs. */
  datatype Buckets = Buckets(successful: nat, failed: nat, untriggered: nat) {
    function Sum(): nat {
      successful + failed + untriggered
    }
  }

  /** One turn of the loop: at most one counter moves, by one, and only for
      the status it stands for. */
  function Step(b: Buckets, j: Job): (r: Buckets)
    ensures r.Sum() <= b.Sum() + 1
    ensures r.successful == b.successful + (if j.status == StatusSuccess then 1 else 0)
    ensures r.failed == b.failed + (if j.status == StatusFailed then 1 else 0)
    ensures r.untriggered == b.untriggered + (if j.status == StatusUntriggered then 1 else 0)
  {
    if j.status == StatusSuccess then b.(successful := b.successful + 1)
    else if j.status == StatusFailed then b.(failed := b.failed + 1)
    else if j.status == StatusUntriggered then b.(untriggered := b.untriggered + 1)
    else b
  }

  /** The counters after the loop has run over `jobs` in order. */
  function Count(jobs: seq<Job>): (b: Buckets)
    ensures b.successful == Tally(jobs, StatusSuccess)
    ensures b.failed == Tally(jobs, StatusFailed)
    ensures b.untriggered == Tally(jobs, StatusUntriggered)
    ensures b.Sum() <= |jobs|
  {
    if |jobs| == 0 then Buckets(0, 0, 0)
    else Step(Count(jobs[..|jobs| - 1]), jobs[|jobs| - 1])
  }

  /** A job whose status is none of the three leaves every counter as it was. */
  lemma OtherStatusCountsNowhere(jobs: seq<Job>, j: Job)
    requires j.status != StatusSuccess && j.status != StatusFailed && j.status != StatusUntriggered
    ensures Count(jobs + [j]) == Count(jobs)
  {
    assert (jobs + [j])[..|jobs|] == jobs;
  }

  /** The leader's name, or the sentinel when the lookup failed. */
  function LeaderName(lookup: Result<Member, string>): (name: string)
    ensures lookup.Failure? ==> name == NoLeader
    ensures lookup.Success? ==> name == lookup.value.name
  {
    match lookup
    case Success(m) => m.name
    case Failure(_) => NoLeader
  }

  /** The template variables of the index page (the API URL is left out). */
  datatype DashboardVars = DashboardVars(
    leader: string,
    totalJobs: nat,
    failedJobs: nat,
    untriggeredJobs: nat,
    successfulJobs: nat,
    aclEnabled: bool,
    uiAuthEnabled: bool,
    uiSessionEnabled: bool)

  /** `jobs` is what the store returned (its error is only logged), `leader`
      the outcome of the leader lookup. */
  function IndexVars(jobs: seq<Job>, leader: Result<Member, string>, aclEnabled: bool, cfg: Config): (v: DashboardVars)
    ensures v.totalJobs == |jobs|
    ensures v.successfulJobs == Tally(jobs, StatusSuccess)
    ensures v.failedJobs == Tally(jobs, StatusFailed)
    ensures v.untriggeredJobs == Tally(jobs, StatusUntriggered)
    ensures v.successfulJobs + v.failedJobs + v.untriggeredJobs <= v.totalJobs
    ensures leader.Failure? ==> v.leader == NoLeader
    ensures leader.Success? ==> v.leader == leader.value.name
    ensures v.aclEnabled == aclEnabled
    ensures v.uiAuthEnabled == cfg.authEnabled && v.uiSessionEnabled == cfg.sessionEnabled
  {
    var b := Count(jobs);
    DashboardVars(LeaderName(leader), |jobs|, b.failed, b.untriggered, b.successful,
                  aclEnabled, cfg.authEnabled, cfg.sessionEnabled)
  }

  datatype UiPage = Asset(path: string) | Index(vars: DashboardVars)

  /** `strings.TrimPrefix(p, "/")`. */
  function TrimSlash(p: string): (f: string)
    ensures |p| > 0 && p[0] == '/' <==> "/" + f == p
    ensures "/" + f != p ==> f == p
  {
    if |p| > 0 && p[0] == '/' then p[1..] else p
  }

  /** The page for path `p` under the dashboard prefix: the bundled file when
      it exists and is not the index, else the rendered index. */
  function ResolvePage(p: string, assetExists: string -> bool, jobs: seq<Job>,
                       leader: Result<Member, string>, aclEnabled: bool, cfg: Config): (page: UiPage)
    ensures page.Asset? ==> page.path == p && assetExists(TrimSlash(p))
    ensures assetExists(TrimSlash(p)) && p != "/" && p != "/index.html" ==> page == Asset(p)
    ensures p == "/" || p == "/index.html" ==> page.Index?
    ensures page.Index? ==> page.vars == IndexVars(jobs, leader, aclEnabled, cfg)
  {
    if assetExists(TrimSlash(p)) && p != "/" && p != "/index.html" then Asset(p)
    else Index(IndexVars(jobs, leader, aclEnabled, cfg))
  }
}
