/** The page's record list as mutable state, written through to the
    browser's local storage under the key `jobApplications` after every
    change. The serialiser is not modelled: a stored value is either
    missing, the empty string, a text that parses to a list, or a text the
    parser rejects. */
module Store {
  import opened Wrappers
  import opened Sequences
  import opened Applications

  datatype StoredValue = Missing | EmptyText | Saved(list: seq<Application>) | Malformed

  datatype LoadError = ParseError

  /** The initial-state function of the page: `saved ? JSON.parse(saved) : []`.
      An absent or empty value gives the empty list; a value the parser
      rejects makes the page fail (there is no fallback). */
  function LoadApplications(v: StoredValue): (r: Result<seq<Application>, LoadError>)
    ensures r.Failure? <==> v.Malformed?
    ensures v.Missing? || v.EmptyText? ==> r == Success([])
    ensures v.Saved? ==> r == Success(v.list)
  {
    match v
    case Missing => Success([])
    case EmptyText => Success([])
    case Saved(list) => Success(list)
    case Malformed => Failure(ParseError)
  }

  class ApplicationStore {
    var applications: seq<Application>
    /** The value under the storage key. */
    ghost var storage: StoredValue

    /** Write-through: storage always holds the current list. */
    ghost predicate Valid()
      reads this
    {
      storage == Saved(applications)
    }

    /** The state right after the first render: the loaded list, which the
        persist effect has written back. */
    constructor (initial: seq<Application>)
      ensures Valid() && applications == initial
    {
      applications := initial;
      storage := Saved(initial);
    }

    /** Mounting the page: load, then persist once. */
    static method Mount(stored: StoredValue) returns (r: Result<ApplicationStore, LoadError>)
      ensures r.Failure? <==> stored.Malformed?
      ensures r.Success? ==> fresh(r.value) && r.value.Valid()
      ensures r.Success? ==> LoadApplications(stored) == Success(r.value.applications)
    {
      match LoadApplications(stored)
      case Success(list) =>
        var page := new ApplicationStore(list);
        r := Success(page);
      case Failure(e) =>
        r := Failure(e);
    }

    /** `setApplications(next)` followed by the effect that persists it. */
    method SetApplications(next: seq<Application>)
      modifies this
      ensures Valid() && applications == next
    {
      applications := next;
      storage := Saved(applications);
    }

    /** `addApplication(newApplication)` at clock reading `now`. */
    method Add(d: Draft, now: int)
      requires Valid()
      modifies this
      ensures Valid()
      ensures applications == Appended(old(applications), d, now)
      ensures |applications| == |old(applications)| + 1
      ensures applications[..|old(applications)|] == old(applications)
      ensures applications[|old(applications)|] == WithId(d, now)
      ensures IdsUnique(old(applications)) && FreshId(old(applications), now) ==> IdsUnique(applications)
    {
      if IdsUnique(applications) && FreshId(applications, now) {
        AppendedKeepsIdsUnique(applications, d, now);
      }
      SetApplications(Appended(applications, d, now));
    }

    /** `deleteApplication(id)` */
    method Delete(id: int)
      requires Valid()
      modifies this
      ensures Valid()
      ensures applications == Removed(old(applications), id)
      ensures IsSubseq(applications, old(applications))
      ensures forall a :: a in applications ==> a.id != id
      ensures !HasId(old(applications), id) ==> applications == old(applications)
      ensures IdsUnique(old(applications)) ==> IdsUnique(applications)
    {
      RemovedSpec(applications, id);
      if IdsUnique(applications) {
        RemovedKeepsIdsUnique(applications, id);
      }
      SetApplications(Removed(applications, id));
    }

    /** `updateApplication(id, newStatus)` */
    method UpdateStatus(id: int, status: string)
      requires Valid()
      modifies this
      ensures Valid()
      ensures applications == StatusUpdated(old(applications), id, status)
      ensures |applications| == |old(applications)|
      ensures forall i :: 0 <= i < |applications| ==>
        applications[i] == if old(applications)[i].id == id then old(applications)[i].(status := status) else old(applications)[i]
      ensures IdsUnique(old(applications)) ==> IdsUnique(applications)
    {
      StatusUpdatedSpec(applications, id, status);
      if IdsUnique(applications) {
        StatusUpdatedKeepsIdsUnique(applications, id, status);
      }
      SetApplications(StatusUpdated(applications, id, status));
    }
  }

  /** Whatever the sequence of updates, reloading the page reads back the
      list it held. */
  lemma {:induction false} ReloadReadsBack(page: ApplicationStore)
    requires page.Valid()
    ensures LoadApplications(page.storage) == Success(page.applications)
  {
  }

  /** The two scenarios the tracker is meant to support: adding a first
      application counts one applied, and moving it to Offer moves the tally. */
  method ScenarioAddThenOffer(now: int)
  {
    var r := ApplicationStore.Mount(Missing);
    var page := r.value;
    var d := Draft("Acme", "SWE Intern", Applied, "2025-01-01", "", "", "");
    page.Add(d, now);
    assert page.applications == [WithId(d, now)];
    assert StatsOf(page.applications) == Stats(1, 1, 0, 0, 0);
    page.UpdateStatus(now, Offer);
    assert page.applications == [WithId(d, now).(status := Offer)];
    assert StatsOf(page.applications) == Stats(1, 0, 0, 1, 0);
  }
}
