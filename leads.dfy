/** The leads page: the client-side search and call-status filter over the
    leads last fetched, the page title of each filter and the call-status
    badge of each lead. */
module Leads {
  import opened Text
  import opened Seqs
  import opened LeadTypes

  /** The `filter` property of the page. */
  datatype LeadFilter = AllLeads | NewLeads | NoAnswerLeads | AppointmentLeads | AgreedLeads | NotInterestedLeads

  /** The free-text search: the lower-cased query occurs in the lower-cased
      name or e-mail, or the query occurs verbatim in the phone number. */
  predicate MatchesSearch(lead: Lead, query: string) {
    || Contains(Lower(lead.name), Lower(query))
    || (lead.email.Some? && Contains(Lower(lead.email.value), Lower(query)))
    || (lead.phone.Some? && Contains(lead.phone.value, query))
  }

  /** The "new" bucket: a new lead nobody has called yet (no call status,
      or a pending one). */
  predicate IsUnworked(lead: Lead) {
    lead.status == New && (lead.callStatus == None || lead.callStatus == Some(Pending))
  }

  /** The call-status bucket a filter selects. */
  predicate InBucket(lead: Lead, filter: LeadFilter) {
    match filter
    case AllLeads => true
    case NewLeads => IsUnworked(lead)
    case NoAnswerLeads => lead.callStatus == Some(NoAnswer)
    case AppointmentLeads => lead.callStatus == Some(AppointmentScheduled)
    case AgreedLeads => lead.callStatus == Some(Agreed)
    case NotInterestedLeads => lead.callStatus == Some(NotInterested)
  }

  function SearchPredicate(query: string): Lead -> bool {
    (lead: Lead) => MatchesSearch(lead, query)
  }

  function BucketPredicate(filter: LeadFilter): Lead -> bool {
    (lead: Lead) => InBucket(lead, filter)
  }

  /** What the page shows: the search (when the query is not empty) and
      the bucket, both. */
  predicate Visible(lead: Lead, query: string, filter: LeadFilter) {
    (query == "" || MatchesSearch(lead, query)) && InBucket(lead, filter)
  }

  function VisiblePredicate(query: string, filter: LeadFilter): Lead -> bool {
    (lead: Lead) => Visible(lead, query, filter)
  }

  /** `applyFilters`: the search filter when the query is not empty, then
      the bucket filter unless the filter is `all`. */
  function ApplyFilters(leads: seq<Lead>, query: string, filter: LeadFilter): (shown: seq<Lead>)
    ensures |shown| <= |leads|
  {
    var searched := if query != "" then Select(leads, SearchPredicate(query)) else leads;
    if filter == AllLeads then searched else Select(searched, BucketPredicate(filter))
  }

  /** The two filters compose as one filter by their conjunction. */
  lemma ApplyFiltersIsConjunction(leads: seq<Lead>, query: string, filter: LeadFilter)
    ensures ApplyFilters(leads, query, filter) == Select(leads, VisiblePredicate(query, filter))
  {
    var visible := VisiblePredicate(query, filter);
    if query == "" && filter == AllLeads {
      SelectAllKept(leads, visible);
    } else if query == "" {
      SelectCongruent(leads, BucketPredicate(filter), visible);
    } else if filter == AllLeads {
      SelectCongruent(leads, SearchPredicate(query), visible);
    } else {
      SelectSelect(leads, SearchPredicate(query), BucketPredicate(filter), visible);
    }
  }

  /** A lead is shown exactly when it is among the fetched leads and passes
      both the search and the bucket; an empty query restricts nothing. */
  lemma ApplyFiltersMembers(leads: seq<Lead>, query: string, filter: LeadFilter, lead: Lead)
    ensures lead in ApplyFilters(leads, query, filter) <==> lead in leads && Visible(lead, query, filter)
  {
    ApplyFiltersIsConjunction(leads, query, filter);
    SelectMembers(leads, VisiblePredicate(query, filter), lead);
  }

  /** The leads shown are the fetched leads at increasing positions `idx`,
      which are exactly the positions of the visible leads: filtering never
      adds, duplicates or reorders a lead. */
  lemma ApplyFiltersKeepsOrder(leads: seq<Lead>, query: string, filter: LeadFilter) returns (idx: seq<nat>)
    ensures |idx| == |ApplyFilters(leads, query, filter)|
    ensures forall k :: 0 <= k < |idx| ==>
      idx[k] < |leads| && ApplyFilters(leads, query, filter)[k] == leads[idx[k]]
    ensures forall k, m :: 0 <= k < m < |idx| ==> idx[k] < idx[m]
    ensures forall j :: 0 <= j < |leads| ==> (Visible(leads[j], query, filter) <==> j in idx)
  {
    ApplyFiltersIsConjunction(leads, query, filter);
    idx := SelectIsSubsequence(leads, VisiblePredicate(query, filter));
  }

  /** Filtering what is shown again with the same query and filter shows
      the same leads. */
  lemma ApplyFiltersIdempotent(leads: seq<Lead>, query: string, filter: LeadFilter)
    ensures ApplyFilters(ApplyFilters(leads, query, filter), query, filter) == ApplyFilters(leads, query, filter)
  {
    var shown := ApplyFilters(leads, query, filter);
    ApplyFiltersIsConjunction(leads, query, filter);
    ApplyFiltersIsConjunction(shown, query, filter);
    SelectAllKept(shown, VisiblePredicate(query, filter));
  }

  /** No lead is in two different call-status buckets. */
  lemma BucketsDisjoint(lead: Lead, f: LeadFilter, g: LeadFilter)
    requires f != g && f != AllLeads && g != AllLeads
    ensures !(InBucket(lead, f) && InBucket(lead, g))
  {
  }

  /** `getFilterTitle`: the heading of the page for each filter. */
  function FilterTitle(filter: LeadFilter): (title: string)
    ensures title != ""
  {
    match filter
    case AllLeads => "Wszystkie Leady"
    case NewLeads => "Nowe Leady"
    case NoAnswerLeads => "Nie Odebrał"
    case AppointmentLeads => "Umówiona Rozmowa"
    case AgreedLeads => "Zgodził Się"
    case NotInterestedLeads => "Nie Jest Zainteresowany"
  }

  /** Different filters get different headings. */
  lemma FilterTitlesDistinct(f: LeadFilter, g: LeadFilter)
    requires f != g
    ensures FilterTitle(f) != FilterTitle(g)
  {
  }

  datatype Badge = Badge(caption: string, className: string)

  /** The `statusMap` entry of each call status. */
  function BadgeFor(callStatus: CallStatus): Badge {
    match callStatus
    case Pending => Badge("Oczekujący", "bg-blue-500/20 text-blue-300")
    case NoAnswer => Badge("Nie Odebrał", "bg-yellow-500/20 text-yellow-300")
    case AppointmentScheduled => Badge("Umówiona Rozmowa", "bg-violet-500/20 text-violet-300")
    case Agreed => Badge("Zgodził Się", "bg-green-500/20 text-green-300")
    case NotInterested => Badge("Nie Jest Zainteresowany", "bg-red-500/20 text-red-300")
  }

  /** `getStatusBadge`: the badge of a lead's call status, an absent status
      shown as pending. */
  function StatusBadge(lead: Lead): (badge: Badge)
    ensures lead.callStatus == None ==> badge == BadgeFor(Pending)
    ensures lead.callStatus.Some? ==> badge == BadgeFor(lead.callStatus.value)
  {
    BadgeFor(if lead.callStatus.Some? then lead.callStatus.value else Pending)
  }

  /** Each call status has its own label. */
  lemma BadgeLabelsDistinct(a: CallStatus, b: CallStatus)
    requires a != b
    ensures BadgeFor(a).caption != BadgeFor(b).caption
  {
  }

  /** Every lead a call-outcome filter shows wears the badge named like the
      page heading, and every lead of the "new" bucket is shown as pending. */
  lemma BadgeAgreesWithFilter(lead: Lead, filter: LeadFilter)
    requires filter != AllLeads && InBucket(lead, filter)
    ensures filter == NewLeads ==> StatusBadge(lead) == BadgeFor(Pending)
    ensures filter != NewLeads ==> StatusBadge(lead).caption == FilterTitle(filter)
  {
  }
}
