/** The dashboard: per-bucket counts over the most recent leads, and the
    totals the record store reports for each table. */
module Dashboard {
  import opened Seqs
  import opened LeadTypes
  import opened Leads

  /** `.limit(5)` of the recent-leads query. */
  const RecentLimit: nat := 5

  datatype Stats = Stats(
    totalLeads: nat,
    newLeads: nat,
    noAnswer: nat,
    appointmentScheduled: nat,
    agreed: nat,
    notInterested: nat,
    totalClients: nat,
    totalTasks: nat)

  datatype DashboardData = DashboardData(stats: Stats, recentLeads: seq<Lead>)

  /** The leads the recent-leads query returns: the store's leads, newest
      first, cut to the limit; none when the query gave no data. */
  function RecentSnapshot(newestFirst: Option<seq<Lead>>): (snapshot: seq<Lead>)
    ensures |snapshot| <= RecentLimit
    ensures newestFirst == None ==> snapshot == []
    ensures newestFirst.Some? ==>
      |snapshot| == (if |newestFirst.value| < RecentLimit then |newestFirst.value| else RecentLimit)
      && snapshot == newestFirst.value[..|snapshot|]
  {
    match newestFirst
    case None => []
    case Some(rows) => if |rows| <= RecentLimit then rows else rows[..RecentLimit]
  }

  /** `count || 0`: a count the store did not report reads as zero. */
  function CountOrZero(count: Option<nat>): nat {
    if count.Some? then count.value else 0
  }

  /** The dashboard's own spelling of the "new" predicate. */
  predicate IsNewLead(lead: Lead) {
    lead.status == New && (lead.callStatus == Some(Pending) || lead.callStatus == None)
  }

  function NewLeadPredicate(): Lead -> bool {
    (lead: Lead) => IsNewLead(lead)
  }

  function CallStatusPredicate(callStatus: CallStatus): Lead -> bool {
    (lead: Lead) => lead.callStatus == Some(callStatus)
  }

  /** `allLeads.filter(pred).length`. */
  function CountWhere(leads: seq<Lead>, pred: Lead -> bool): (n: nat)
    ensures n <= |leads|
  {
    |Select(leads, pred)|
  }

  /** `loadDashboardData` once its four queries have answered. */
  function LoadDashboard(newestFirst: Option<seq<Lead>>, leadCount: Option<nat>,
                         clientCount: Option<nat>, taskCount: Option<nat>): (d: DashboardData)
    ensures d.recentLeads == RecentSnapshot(newestFirst)
    ensures d.stats.totalLeads == (if leadCount == None then 0 else leadCount.value)
    ensures d.stats.totalClients == (if clientCount == None then 0 else clientCount.value)
    ensures d.stats.totalTasks == (if taskCount == None then 0 else taskCount.value)
  {
    var allLeads := RecentSnapshot(newestFirst);
    DashboardData(
      Stats(
        totalLeads := CountOrZero(leadCount),
        newLeads := CountWhere(allLeads, NewLeadPredicate()),
        noAnswer := CountWhere(allLeads, CallStatusPredicate(NoAnswer)),
        appointmentScheduled := CountWhere(allLeads, CallStatusPredicate(AppointmentScheduled)),
        agreed := CountWhere(allLeads, CallStatusPredicate(Agreed)),
        notInterested := CountWhere(allLeads, CallStatusPredicate(NotInterested)),
        totalClients := CountOrZero(clientCount),
        totalTasks := CountOrZero(taskCount)),
      allLeads)
  }

  /** Counting by a bucket's predicate on the dashboard gives as many leads
      as the leads page shows under that filter with an empty search. */
  lemma {:induction false} CountMatchesFilter(leads: seq<Lead>, pred: Lead -> bool, filter: LeadFilter)
    requires filter != AllLeads
    requires forall lead :: pred(lead) == InBucket(lead, filter)
    ensures CountWhere(leads, pred) == |ApplyFilters(leads, "", filter)|
  {
    SelectCongruent(leads, pred, BucketPredicate(filter));
  }

  /** Each dashboard count equals the number of leads of the snapshot the
      leads page would show under the matching filter. */
  lemma StatsAgreeWithLeadsPage(newestFirst: Option<seq<Lead>>, leadCount: Option<nat>,
                                clientCount: Option<nat>, taskCount: Option<nat>)
    ensures var d := LoadDashboard(newestFirst, leadCount, clientCount, taskCount);
      && d.stats.newLeads == |ApplyFilters(d.recentLeads, "", NewLeads)|
      && d.stats.noAnswer == |ApplyFilters(d.recentLeads, "", NoAnswerLeads)|
      && d.stats.appointmentScheduled == |ApplyFilters(d.recentLeads, "", AppointmentLeads)|
      && d.stats.agreed == |ApplyFilters(d.recentLeads, "", AgreedLeads)|
      && d.stats.notInterested == |ApplyFilters(d.recentLeads, "", NotInterestedLeads)|
  {
    var s := RecentSnapshot(newestFirst);
    CountMatchesFilter(s, NewLeadPredicate(), NewLeads);
    CountMatchesFilter(s, CallStatusPredicate(NoAnswer), NoAnswerLeads);
    CountMatchesFilter(s, CallStatusPredicate(AppointmentScheduled), AppointmentLeads);
    CountMatchesFilter(s, CallStatusPredicate(Agreed), AgreedLeads);
    CountMatchesFilter(s, CallStatusPredicate(NotInterested), NotInterestedLeads);
  }

  /** The five bucket predicates never hold together, so their counts add
      up to at most the number of leads. */
  lemma BucketCountsDisjoint(leads: seq<Lead>)
    ensures CountWhere(leads, NewLeadPredicate()) + CountWhere(leads, CallStatusPredicate(NoAnswer))
      + CountWhere(leads, CallStatusPredicate(AppointmentScheduled)) + CountWhere(leads, CallStatusPredicate(Agreed))
      + CountWhere(leads, CallStatusPredicate(NotInterested)) <= |leads|
  {
    var isNew := NewLeadPredicate();
    var noAnswer := CallStatusPredicate(NoAnswer);
    var appointment := CallStatusPredicate(AppointmentScheduled);
    var agreed := CallStatusPredicate(Agreed);
    var notInterested := CallStatusPredicate(NotInterested);
    var upToNoAnswer := (lead: Lead) => isNew(lead) || noAnswer(lead);
    var upToAppointment := (lead: Lead) => upToNoAnswer(lead) || appointment(lead);
    var upToAgreed := (lead: Lead) => upToAppointment(lead) || agreed(lead);
    var any := (lead: Lead) => upToAgreed(lead) || notInterested(lead);
    SelectDisjointUnion(leads, isNew, noAnswer, upToNoAnswer);
    SelectDisjointUnion(leads, upToNoAnswer, appointment, upToAppointment);
    SelectDisjointUnion(leads, upToAppointment, agreed, upToAgreed);
    SelectDisjointUnion(leads, upToAgreed, notInterested, any);
  }

  /** The five buckets never share a lead, so together they count at most
      the snapshot, which holds at most five leads. */
  lemma BucketCountsBounded(newestFirst: Option<seq<Lead>>, leadCount: Option<nat>,
                            clientCount: Option<nat>, taskCount: Option<nat>)
    ensures var d := LoadDashboard(newestFirst, leadCount, clientCount, taskCount);
      && d.stats.newLeads + d.stats.noAnswer + d.stats.appointmentScheduled
         + d.stats.agreed + d.stats.notInterested <= |d.recentLeads|
      && |d.recentLeads| <= RecentLimit
  {
    BucketCountsDisjoint(RecentSnapshot(newestFirst));
  }
}
