/** The instructor's availability list (InstructorDashboard.js): the
    newest-first sort done in place on the array it is given, the three
    list updates (append-then-sort, replace by id, remove by id), the
    loading effect and the "Expired" rule of the countdown. */
module InstructorDashboard {
  import opened Common
  import TimeOfDay

  /** One availability of the instructor's profile; `createdAt` is the
      creation instant in milliseconds. */
  datatype Availability = Availability(
    id: string,
    date: string,
    startTime: string,
    endTime: string,
    classType: string,
    createdAt: int)

  /** Newest first: `createdAt` never increases along the list. */
  predicate NewestFirst(s: seq<Availability>)
  {
    forall i, j :: 0 <= i < j < |s| ==> s[i].createdAt >= s[j].createdAt
  }

  // ---------------------------------------------------------------------
  // sortAvailabilities: `availabilities.sort(...)` reorders its argument.
  // The comparator puts `a` first exactly when `a.createdAt` is after
  // `b.createdAt`; it never answers 0, so the order of entries with equal
  // timestamps is left open here.
  // ---------------------------------------------------------------------

  method Swap(a: array<Availability>, i: nat, j: nat)
    requires i < a.Length && j < a.Length
    modifies a
    ensures a[i] == old(a[j]) && a[j] == old(a[i])
    ensures forall m :: 0 <= m < a.Length && m != i && m != j ==> a[m] == old(a[m])
    ensures multiset(a[..]) == multiset(old(a[..]))
  {
    a[i], a[j] := a[j], a[i];
  }

  /** The position of a newest entry of `a[lo..]`. */
  method IndexOfNewest(a: array<Availability>, lo: nat) returns (k: nat)
    requires lo < a.Length
    ensures lo <= k < a.Length
    ensures forall m :: lo <= m < a.Length ==> a[m].createdAt <= a[k].createdAt
  {
    k := lo;
    var m := lo + 1;
    while m < a.Length
      invariant lo <= k < m <= a.Length
      invariant forall p :: lo <= p < m ==> a[p].createdAt <= a[k].createdAt
    {
      if a[m].createdAt > a[k].createdAt {
        k := m;
      }
      m := m + 1;
    }
  }

  /** Sorts `a` in place, newest first; the array keeps the same entries. */
  method SortAvailabilities(a: array<Availability>)
    modifies a
    ensures NewestFirst(a[..])
    ensures multiset(a[..]) == multiset(old(a[..]))
  {
    var i := 0;
    while i < a.Length
      invariant 0 <= i <= a.Length
      invariant NewestFirst(a[..i])
      invariant forall p, q :: 0 <= p < i <= q < a.Length ==> a[p].createdAt >= a[q].createdAt
      invariant multiset(a[..]) == multiset(old(a[..]))
    {
      var k := IndexOfNewest(a, i);
      Swap(a, i, k);
      i := i + 1;
    }
    assert a[..a.Length] == a[..];
  }

  /** Two newest-first orderings of the same entries start with the same
      timestamp. */
  lemma NewestFirstSameTop(s: seq<Availability>, t: seq<Availability>)
    requires NewestFirst(s) && NewestFirst(t)
    requires multiset(s) == multiset(t) && |s| > 0
    ensures |s| == |t| && s[0].createdAt == t[0].createdAt
  {
    assert |s| == |multiset(s)| == |multiset(t)| == |t|;
    assert s[0] in multiset(t) && t[0] in multiset(s);
    var p :| 0 <= p < |t| && t[p] == s[0];
    var q :| 0 <= q < |s| && s[q] == t[0];
  }

  /** Taking one entry out of a newest-first list leaves it newest first. */
  lemma NewestFirstWithout(t: seq<Availability>, p: nat)
    requires NewestFirst(t) && p < |t|
    ensures NewestFirst(t[..p] + t[p + 1..])
  {
    var t' := t[..p] + t[p + 1..];
    forall i, j | 0 <= i < j < |t'| ensures t'[i].createdAt >= t'[j].createdAt {
      var i0 := if i < p then i else i + 1;
      var j0 := if j < p then j else j + 1;
      assert t'[i] == t[i0] && t'[j] == t[j0];
    }
  }

  lemma MultisetWithout(t: seq<Availability>, p: nat)
    requires p < |t|
    ensures multiset(t[..p] + t[p + 1..]) == multiset(t) - multiset{t[p]}
  {
    assert t == t[..p] + [t[p]] + t[p + 1..];
  }

  /** Taking out of a newest-first list an entry that carries the top
      timestamp shifts the timestamps after the first one by one place. */
  lemma WithoutTopShifts(t: seq<Availability>, p: nat, k: nat)
    requires NewestFirst(t) && p < |t| && t[p].createdAt == t[0].createdAt
    requires 0 < k < |t|
    ensures (t[..p] + t[p + 1..])[k - 1].createdAt == t[k].createdAt
  {
    var t' := t[..p] + t[p + 1..];
    if k - 1 < p {
      assert t'[k - 1] == t[k - 1];
      assert t[0].createdAt >= t[k - 1].createdAt >= t[k].createdAt >= t[p].createdAt;
    } else {
      assert t'[k - 1] == t[k];
    }
  }

  /** Two newest-first orderings of the same entries list the same
      timestamps in the same order: sorting fixes everything but the order
      among entries created at the same instant. */
  lemma {:induction false} NewestFirstDeterminesTimestamps(s: seq<Availability>, t: seq<Availability>, k: nat)
    requires NewestFirst(s) && NewestFirst(t)
    requires multiset(s) == multiset(t)
    requires k < |s|
    ensures |s| == |t| && s[k].createdAt == t[k].createdAt
    decreases |s|
  {
    NewestFirstSameTop(s, t);
    if k > 0 {
      // Take s[0] out of t where it occurs and compare what is left.
      var p :| 0 <= p < |t| && t[p] == s[0] by {
        assert s[0] in multiset(t);
      }
      var s', t' := s[1..], t[..p] + t[p + 1..];
      TailsAgree(s, t, p);
      NewestFirstDeterminesTimestamps(s', t', k - 1);
      WithoutTopShifts(t, p, k);
      assert s'[k - 1] == s[k];
    }
  }

  /** What is left of two newest-first orderings of the same entries once
      the first entry of one is taken out of both. */
  lemma TailsAgree(s: seq<Availability>, t: seq<Availability>, p: nat)
    requires NewestFirst(s) && NewestFirst(t)
    requires multiset(s) == multiset(t) && p < |t| && 0 < |s| && t[p] == s[0]
    ensures multiset(s[1..]) == multiset(t[..p] + t[p + 1..])
    ensures NewestFirst(s[1..]) && NewestFirst(t[..p] + t[p + 1..])
  {
    MultisetWithout(t, p);
    assert s == [s[0]] + s[1..];
    NewestFirstWithout(t, p);
  }

  // ---------------------------------------------------------------------
  // The pure list updates.
  // ---------------------------------------------------------------------

  /** `prev.map(avail => avail.id === updated.id ? updated : avail)` */
  function ReplaceById(prev: seq<Availability>, updated: Availability): (r: seq<Availability>)
    ensures |r| == |prev|
    ensures forall i :: 0 <= i < |prev| && prev[i].id == updated.id ==> r[i] == updated
    ensures forall i :: 0 <= i < |prev| && prev[i].id != updated.id ==> r[i] == prev[i]
  {
    if prev == [] then []
    else [if prev[0].id == updated.id then updated else prev[0]] + ReplaceById(prev[1..], updated)
  }

  /** `prev.filter(avail => avail.id !== id)` */
  function RemoveById(prev: seq<Availability>, id: string): (r: seq<Availability>)
    ensures |r| <= |prev|
  {
    if prev == [] then []
    else if prev[0].id != id then [prev[0]] + RemoveById(prev[1..], id)
    else RemoveById(prev[1..], id)
  }

  /** Removal keeps the order of what remains, leaves no entry with the id,
      and keeps every other entry as often as it occurred. */
  lemma {:induction false} RemoveByIdKeepsOthers(prev: seq<Availability>, id: string)
    ensures IsSubsequence(RemoveById(prev, id), prev)
    ensures forall x :: x in RemoveById(prev, id) ==> x.id != id
    ensures forall x: Availability :: x.id != id ==> multiset(RemoveById(prev, id))[x] == multiset(prev)[x]
  {
    if prev != [] {
      var rest := RemoveById(prev[1..], id);
      RemoveByIdKeepsOthers(prev[1..], id);
      assert prev == [prev[0]] + prev[1..];
      if prev[0].id != id {
        assert RemoveById(prev, id) == [prev[0]] + rest;
        assert ([prev[0]] + rest)[1..] == rest;
      }
    }
  }

  /** Replacing an entry and then removing its id is the same as removing
      the id straight away. */
  lemma {:induction false} RemoveAfterReplace(prev: seq<Availability>, updated: Availability)
    ensures RemoveById(ReplaceById(prev, updated), updated.id) == RemoveById(prev, updated.id)
  {
    if prev != [] {
      RemoveAfterReplace(prev[1..], updated);
      assert ReplaceById(prev, updated)[1..] == ReplaceById(prev[1..], updated);
    }
  }

  /** Removing an id twice removes nothing more. */
  lemma {:induction false} RemoveIsIdempotent(prev: seq<Availability>, id: string)
    ensures RemoveById(RemoveById(prev, id), id) == RemoveById(prev, id)
  {
    if prev != [] {
      RemoveIsIdempotent(prev[1..], id);
      if prev[0].id != id {
        assert ([prev[0]] + RemoveById(prev[1..], id))[1..] == RemoveById(prev[1..], id);
      }
    }
  }

  // ---------------------------------------------------------------------
  // getTimeRemaining: 'Expired' unless the start instant is after now.
  // ---------------------------------------------------------------------

  datatype Countdown = Expired | Remaining(ms: nat)

  /** `start.isAfter(now) ? start.from(now, true) : 'Expired'`; the
      relative-time text is represented by the distance in milliseconds. */
  function CountdownTo(start: int, now: int): (r: Countdown)
    ensures r == Expired <==> start <= now
    ensures r.Remaining? ==> r.ms > 0 && start == now + r.ms
  {
    if start > now then Remaining(start - now) else Expired
  }

  /** The countdown as written: the row passes `(date, startTime)` but the
      function reads only its first argument, so the count runs to the
      instant `dateMs` the date string alone denotes (its midnight). */
  function CountdownAsWritten(dateMs: int, startTime: string, now: int): (r: Countdown)
    ensures r == Expired <==> dateMs <= now
  {
    CountdownTo(dateMs, now)
  }

  /** A class starting at 18:00 on a day whose midnight has passed by nine
      hours is shown as expired, although it starts nine hours later. */
  lemma ClassLaterTodayShownExpired(midnight: int)
    ensures var now := midnight + 9 * 60 * TimeOfDay.MsPerMinute;
            TimeOfDay.WellFormed("18:00") &&
            midnight + TimeOfDay.Minutes("18:00") * TimeOfDay.MsPerMinute > now &&
            CountdownAsWritten(midnight, "18:00", now) == Expired
  {
    assert TimeOfDay.Minutes("18:00") == 1080;
  }

  /** The countdown to the class's start: its date plus its start time. */
  function CountdownToSlot(dateMs: int, startTime: string, now: int): (r: Countdown)
    requires TimeOfDay.WellFormed(startTime)
    ensures r == Expired <==> dateMs + TimeOfDay.Minutes(startTime) * TimeOfDay.MsPerMinute <= now
    ensures CountdownAsWritten(dateMs, startTime, now) == Expired && r != Expired ==>
              dateMs <= now < dateMs + TimeOfDay.Minutes(startTime) * TimeOfDay.MsPerMinute
  {
    CountdownTo(dateMs + TimeOfDay.Minutes(startTime) * TimeOfDay.MsPerMinute, now)
  }

  // ---------------------------------------------------------------------
  // The dashboard component's state.
  // ---------------------------------------------------------------------

  class Dashboard {
    var availabilities: seq<Availability>
    var loading: bool
    var availabilityModal: bool
    var editModal: bool
    var deleteModal: bool
    var availabilityToEdit: Option<Availability>
    var availabilityToDelete: Option<Availability>

    constructor ()
      ensures availabilities == [] && loading
      ensures !availabilityModal && !editModal && !deleteModal
      ensures availabilityToEdit == None && availabilityToDelete == None
    {
      availabilities := [];
      loading := true;
      availabilityModal, editModal, deleteModal := false, false, false;
      availabilityToEdit, availabilityToDelete := None, None;
    }

    /** The effect run when `profile.availabilities` changes (`null` when the
        profile has no such field). The profile's own array is sorted in
        place and becomes the list; without it the dashboard keeps loading. */
    method LoadProfile(profileAvailabilities: array?<Availability>)
      modifies this, profileAvailabilities
      ensures profileAvailabilities != null ==>
                && NewestFirst(profileAvailabilities[..])
                && multiset(profileAvailabilities[..]) == multiset(old(profileAvailabilities[..]))
                && availabilities == profileAvailabilities[..]
                && !loading
      ensures profileAvailabilities == null ==> loading && availabilities == old(availabilities)
      ensures availabilityModal == old(availabilityModal) && editModal == old(editModal)
      ensures deleteModal == old(deleteModal)
      ensures availabilityToEdit == old(availabilityToEdit)
      ensures availabilityToDelete == old(availabilityToDelete)
    {
      if profileAvailabilities != null {
        SortAvailabilities(profileAvailabilities);
        availabilities := profileAvailabilities[..];
        loading := false;
      } else {
        loading := true;
      }
    }

    /** `sortAvailabilities([...prev, newAvailability])`, then the add modal
        closes. */
    method HandleAddAvailability(newAvailability: Availability)
      modifies this
      ensures NewestFirst(availabilities)
      ensures multiset(availabilities) == multiset(old(availabilities)) + multiset{newAvailability}
      ensures |availabilities| == |old(availabilities)| + 1
      ensures !availabilityModal
      ensures loading == old(loading) && editModal == old(editModal) && deleteModal == old(deleteModal)
      ensures availabilityToEdit == old(availabilityToEdit)
      ensures availabilityToDelete == old(availabilityToDelete)
    {
      var list := availabilities + [newAvailability];
      var copy := new Availability[|list|](i requires 0 <= i < |list| => list[i]);
      assert copy[..] == list;
      SortAvailabilities(copy);
      availabilities := copy[..];
      assert |multiset(availabilities)| == |multiset(list)|;
      availabilityModal := false;
    }

    /** Replaces the entries with the updated record's id, then the edit
        modal closes. */
    method HandleUpdateAvailability(updated: Availability)
      modifies this
      ensures availabilities == ReplaceById(old(availabilities), updated)
      ensures !editModal
      ensures loading == old(loading) && availabilityModal == old(availabilityModal)
      ensures deleteModal == old(deleteModal)
      ensures availabilityToEdit == old(availabilityToEdit)
      ensures availabilityToDelete == old(availabilityToDelete)
    {
      availabilities := ReplaceById(availabilities, updated);
      editModal := false;
    }

    /** Drops the entries with the given id, then the delete modal closes. */
    method HandleDeleteAvailability(availabilityId: string)
      modifies this
      ensures availabilities == RemoveById(old(availabilities), availabilityId)
      ensures !deleteModal
      ensures loading == old(loading) && availabilityModal == old(availabilityModal)
      ensures editModal == old(editModal)
      ensures availabilityToEdit == old(availabilityToEdit)
      ensures availabilityToDelete == old(availabilityToDelete)
    {
      availabilities := RemoveById(availabilities, availabilityId);
      deleteModal := false;
    }

    method OpenEditModal(availability: Availability)
      modifies this
      ensures availabilityToEdit == Some(availability) && editModal
      ensures availabilities == old(availabilities) && loading == old(loading)
      ensures availabilityModal == old(availabilityModal) && deleteModal == old(deleteModal)
      ensures availabilityToDelete == old(availabilityToDelete)
    {
      availabilityToEdit := Some(availability);
      editModal := true;
    }

    method OpenDeleteModal(availability: Availability)
      modifies this
      ensures availabilityToDelete == Some(availability) && deleteModal
      ensures availabilities == old(availabilities) && loading == old(loading)
      ensures availabilityModal == old(availabilityModal) && editModal == old(editModal)
      ensures availabilityToEdit == old(availabilityToEdit)
    {
      availabilityToDelete := Some(availability);
      deleteModal := true;
    }
  }
}
