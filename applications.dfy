/** The application records of the tracker's client page and everything
    computed from the list of them: the three list updates behind
    add / delete / update-status, and the three derived views (the term
    list, the tallies and the filtered list). */
module Applications {
  import opened Sequences
  import opened StringOrder

  /** One tracked application. `status` is the plain string the page compares
      against its four literals; a record without a term has `term == ""`. */
  datatype Application = Application(
    id: int,
    company: string,
    position: string,
    status: string,
    applicationDate: string,
    term: string,
    portalUrl: string,
    notes: string)

  /** What the form hands to the page: a record without its id. */
  datatype Draft = Draft(
    company: string,
    position: string,
    status: string,
    applicationDate: string,
    term: string,
    portalUrl: string,
    notes: string)

  const Applied := "Applied"
  const Interview := "Interview"
  const Offer := "Offer"
  const Rejected := "Rejected"

  /** The selector value that matches every status and every term. */
  const All := "all"

  predicate KnownStatus(s: string)
  {
    s == Applied || s == Interview || s == Offer || s == Rejected
  }

  predicate AllKnown(apps: seq<Application>)
  {
    forall i :: 0 <= i < |apps| ==> KnownStatus(apps[i].status)
  }

  /** No id occurs twice. */
  predicate IdsUnique(apps: seq<Application>)
  {
    forall i, j :: 0 <= i < j < |apps| ==> apps[i].id != apps[j].id
  }

  /** `now` is later than every id handed out so far. */
  predicate FreshId(apps: seq<Application>, now: int)
  {
    forall i :: 0 <= i < |apps| ==> apps[i].id < now
  }

  predicate HasId(apps: seq<Application>, id: int)
  {
    exists i :: 0 <= i < |apps| && apps[i].id == id
  }

  // ---------------------------------------------------------------------
  // The list updates

  function WithId(d: Draft, id: int): Application
  {
    Application(id, d.company, d.position, d.status, d.applicationDate, d.term, d.portalUrl, d.notes)
  }

  /** `[...applications, { id: Date.now(), ...newApplication }]` */
  function Appended(apps: seq<Application>, d: Draft, now: int): seq<Application>
  {
    apps + [WithId(d, now)]
  }

  function IdDiffers(id: int): Application -> bool
  {
    (a: Application) => a.id != id
  }

  /** `applications.filter(app => app.id !== id)` */
  function Removed(apps: seq<Application>, id: int): seq<Application>
  {
    Filter(apps, IdDiffers(id))
  }

  function SetStatusOf(id: int, status: string): Application -> Application
  {
    (a: Application) => if a.id == id then a.(status := status) else a
  }

  /** `applications.map(app => app.id === id ? { ...app, status: newStatus } : app)` */
  function StatusUpdated(apps: seq<Application>, id: int, status: string): seq<Application>
  {
    Map(apps, SetStatusOf(id, status))
  }

  /** Adding grows the list by one at the end, leaves earlier records where
      they were, and the new record carries the timestamp and the form's fields. */
  lemma {:induction false} AppendedSpec(apps: seq<Application>, d: Draft, now: int)
    ensures |Appended(apps, d, now)| == |apps| + 1
    ensures Appended(apps, d, now)[..|apps|] == apps
    ensures var r := Appended(apps, d, now)[|apps|];
      r.id == now && r.company == d.company && r.position == d.position &&
      r.status == d.status && r.applicationDate == d.applicationDate &&
      r.term == d.term && r.portalUrl == d.portalUrl && r.notes == d.notes
  {
  }

  /** With a timestamp later than every existing id, ids stay unique. */
  lemma {:induction false} AppendedKeepsIdsUnique(apps: seq<Application>, d: Draft, now: int)
    requires IdsUnique(apps) && FreshId(apps, now)
    ensures IdsUnique(Appended(apps, d, now))
  {
    var r := Appended(apps, d, now);
    forall i, j | 0 <= i < j < |r| ensures r[i].id != r[j].id {
      assert r[i] == apps[i];
    }
  }

  /** Deleting keeps exactly the records with another id, in their order,
      each as often as before; an id no record has changes nothing. */
  lemma {:induction false} RemovedSpec(apps: seq<Application>, id: int)
    ensures IsSubseq(Removed(apps, id), apps)
    ensures forall a :: a in Removed(apps, id) ==> a in apps && a.id != id
    ensures forall a: Application :: a.id != id ==> multiset(Removed(apps, id))[a] == multiset(apps)[a]
    ensures forall a: Application :: a.id == id ==> a !in Removed(apps, id)
    ensures !HasId(apps, id) ==> Removed(apps, id) == apps
  {
    FilterSpec(apps, IdDiffers(id));
    if !HasId(apps, id) {
      FilterAll(apps, IdDiffers(id));
    }
  }

  /** With unique ids, deleting an id that is present removes one record. */
  lemma {:induction false} RemovedOne(apps: seq<Application>, id: int)
    requires IdsUnique(apps) && HasId(apps, id)
    ensures |Removed(apps, id)| == |apps| - 1
    decreases |apps|
  {
    assert apps == [apps[0]] + apps[1..];
    if apps[0].id == id {
      assert !HasId(apps[1..], id) by {
        forall i | 0 <= i < |apps[1..]| ensures apps[1..][i].id != id {
          assert apps[1..][i] == apps[i + 1];
        }
      }
      FilterAll(apps[1..], IdDiffers(id));
    } else {
      var k :| 0 <= k < |apps| && apps[k].id == id;
      assert apps[1..][k - 1] == apps[k];
      IdsUniqueTail(apps);
      RemovedOne(apps[1..], id);
    }
  }

  /** Deleting keeps ids unique. */
  lemma {:induction false} RemovedKeepsIdsUnique(apps: seq<Application>, id: int)
    requires IdsUnique(apps)
    ensures IdsUnique(Removed(apps, id))
  {
    FilterKeepsIdsUnique(apps, IdDiffers(id));
  }

  lemma {:induction false} FilterKeepsIdsUnique(apps: seq<Application>, p: Application -> bool)
    requires IdsUnique(apps)
    ensures IdsUnique(Filter(apps, p))
    decreases |apps|
  {
    if apps != [] {
      IdsUniqueTail(apps);
      FilterKeepsIdsUnique(apps[1..], p);
      if p(apps[0]) {
        var t := Filter(apps[1..], p);
        FilterMembers(apps[1..], p);
        HeadIdFresh(apps);
        ConsKeepsIdsUnique(apps[0], t);
      }
    }
  }

  lemma {:induction false} IdsUniqueTail(apps: seq<Application>)
    requires apps != [] && IdsUnique(apps)
    ensures IdsUnique(apps[1..])
  {
    forall i, j | 0 <= i < j < |apps[1..]| ensures apps[1..][i].id != apps[1..][j].id {
      assert apps[1..][i] == apps[i + 1] && apps[1..][j] == apps[j + 1];
    }
  }

  lemma {:induction false} HeadIdFresh(apps: seq<Application>)
    requires apps != [] && IdsUnique(apps)
    ensures forall x :: x in apps[1..] ==> x.id != apps[0].id
  {
    forall x | x in apps[1..] ensures x.id != apps[0].id {
      var m :| 0 <= m < |apps[1..]| && apps[1..][m] == x;
      assert apps[m + 1] == x;
    }
  }

  lemma {:induction false} ConsKeepsIdsUnique(a: Application, t: seq<Application>)
    requires IdsUnique(t)
    requires forall x :: x in t ==> x.id != a.id
    ensures IdsUnique([a] + t)
  {
    var r := [a] + t;
    forall i, j | 0 <= i < j < |r| ensures r[i].id != r[j].id {
      assert r[j] == t[j - 1];
      if i > 0 {
        assert r[i] == t[i - 1];
      }
    }
  }

  /** Updating a status keeps length, order and ids; matching records get the
      new status and nothing else changes; an absent id changes nothing. */
  lemma {:induction false} StatusUpdatedSpec(apps: seq<Application>, id: int, status: string)
    ensures |StatusUpdated(apps, id, status)| == |apps|
    ensures forall i :: 0 <= i < |apps| ==> StatusUpdated(apps, id, status)[i].id == apps[i].id
    ensures forall i :: 0 <= i < |apps| && apps[i].id == id ==>
      StatusUpdated(apps, id, status)[i] == apps[i].(status := status)
    ensures forall i :: 0 <= i < |apps| && apps[i].id != id ==>
      StatusUpdated(apps, id, status)[i] == apps[i]
    ensures !HasId(apps, id) ==> StatusUpdated(apps, id, status) == apps
  {
    MapAt(apps, SetStatusOf(id, status));
  }

  /** Updating a status keeps ids unique. */
  lemma {:induction false} StatusUpdatedKeepsIdsUnique(apps: seq<Application>, id: int, status: string)
    requires IdsUnique(apps)
    ensures IdsUnique(StatusUpdated(apps, id, status))
  {
    StatusUpdatedSpec(apps, id, status);
  }

  // ---------------------------------------------------------------------
  // The views

  function HasStatus(status: string): Application -> bool
  {
    (a: Application) => a.status == status
  }

  datatype Stats = Stats(total: nat, applied: nat, interview: nat, offer: nat, rejected: nat)

  /** `stats`: the list length and one `filter(...).length` per status. */
  function StatsOf(apps: seq<Application>): Stats
  {
    Stats(
      |apps|,
      |Filter(apps, HasStatus(Applied))|,
      |Filter(apps, HasStatus(Interview))|,
      |Filter(apps, HasStatus(Offer))|,
      |Filter(apps, HasStatus(Rejected))|)
  }

  /** The status predicate of `filteredApplications`. */
  function Selects(statusFilter: string, termFilter: string): Application -> bool
  {
    (a: Application) => (statusFilter == All || a.status == statusFilter) && (termFilter == All || a.term == termFilter)
  }

  /** `filteredApplications` */
  function Filtered(apps: seq<Application>, statusFilter: string, termFilter: string): seq<Application>
  {
    Filter(apps, Selects(statusFilter, termFilter))
  }

  function TermOf(a: Application): string
  {
    a.term
  }

  predicate NonEmpty(s: string)
  {
    s != ""
  }

  /** `[...new Set(applications.map(app => app.term).filter(Boolean))].sort()` */
  function UniqueTerms(apps: seq<Application>): seq<string>
  {
    Sort(Distinct(Filter(Map(apps, TermOf), NonEmpty)))
  }

  /** The tallies: the total is the length, and when every status is one of
      the four, the four counts add up to it. */
  lemma {:induction false} StatsSpec(apps: seq<Application>)
    ensures StatsOf(apps).total == |apps|
    ensures AllKnown(apps) ==>
      StatsOf(apps).applied + StatsOf(apps).interview + StatsOf(apps).offer + StatsOf(apps).rejected
      == StatsOf(apps).total
    decreases |apps|
  {
    if apps != [] && AllKnown(apps) {
      assert AllKnown(apps[1..]) by {
        forall i | 0 <= i < |apps[1..]| ensures KnownStatus(apps[1..][i].status) {
          assert apps[1..][i] == apps[i + 1];
        }
      }
      StatsSpec(apps[1..]);
      assert KnownStatus(apps[0].status);
    }
  }

  /** Without filters the view is the whole list, in order. */
  lemma {:induction false} FilteredAllIsIdentity(apps: seq<Application>)
    ensures Filtered(apps, All, All) == apps
  {
    FilterAll(apps, Selects(All, All));
  }

  /** Any view keeps order and holds exactly the records both selectors
      accept, each as often as in the list. */
  lemma {:induction false} FilteredSpec(apps: seq<Application>, statusFilter: string, termFilter: string)
    ensures IsSubseq(Filtered(apps, statusFilter, termFilter), apps)
    ensures forall a :: a in Filtered(apps, statusFilter, termFilter) ==>
      a in apps && (statusFilter == All || a.status == statusFilter) && (termFilter == All || a.term == termFilter)
    ensures forall a :: a in apps && (statusFilter == All || a.status == statusFilter) && (termFilter == All || a.term == termFilter) ==>
      multiset(Filtered(apps, statusFilter, termFilter))[a] == multiset(apps)[a]
  {
    FilterSpec(apps, Selects(statusFilter, termFilter));
  }

  /** Choosing a status card and all terms shows as many records as that
      card's count. */
  lemma {:induction false} FilteredMatchesStats(apps: seq<Application>, status: string)
    requires KnownStatus(status)
    ensures status == Applied ==> |Filtered(apps, status, All)| == StatsOf(apps).applied
    ensures status == Interview ==> |Filtered(apps, status, All)| == StatsOf(apps).interview
    ensures status == Offer ==> |Filtered(apps, status, All)| == StatsOf(apps).offer
    ensures status == Rejected ==> |Filtered(apps, status, All)| == StatsOf(apps).rejected
  {
    FilterCongruent(apps, Selects(status, All), HasStatus(status));
  }

  /** The non-empty terms of the records, before de-duplication, are
      exactly the terms some record has. */
  lemma {:induction false} NamedTermsSpec(apps: seq<Application>)
    ensures forall t :: t in Filter(Map(apps, TermOf), NonEmpty) <==>
      t != "" && exists i :: 0 <= i < |apps| && apps[i].term == t
  {
    var terms := Map(apps, TermOf);
    FilterMembers(terms, NonEmpty);
    TermsOfSpec(apps);
  }

  lemma {:induction false} TermsOfSpec(apps: seq<Application>)
    ensures forall t :: t in Map(apps, TermOf) <==> exists i :: 0 <= i < |apps| && apps[i].term == t
  {
    var terms := Map(apps, TermOf);
    MapAt(apps, TermOf);
    forall t ensures t in terms <==> exists i :: 0 <= i < |apps| && apps[i].term == t {
      if t in terms {
        var i :| 0 <= i < |terms| && terms[i] == t;
        assert apps[i].term == t;
      }
      if exists i :: 0 <= i < |apps| && apps[i].term == t {
        var i :| 0 <= i < |apps| && apps[i].term == t;
        assert terms[i] == t;
      }
    }
  }

  /** The term list is strictly ascending (so sorted and free of repeats),
      holds no empty term, and holds exactly the terms some record has. */
  lemma {:induction false} UniqueTermsSpec(apps: seq<Application>)
    ensures StrictlySorted(UniqueTerms(apps))
    ensures forall t :: t in UniqueTerms(apps) ==> t != ""
    ensures forall t :: t in UniqueTerms(apps) <==> t != "" && exists i :: 0 <= i < |apps| && apps[i].term == t
  {
    var named := Filter(Map(apps, TermOf), NonEmpty);
    NamedTermsSpec(apps);
    SortDistinct(Distinct(named));
  }
}
