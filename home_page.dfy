/** The home page (HomePage.js): every booking of the `bookings` collection
    as a card with its seats left, and the booking dialog for the card whose
    button was pressed. The component's state is a value; each handler
    maps it to the next one. */
module HomePage {
  import opened Common
  import opened Bookings
  import ClassBookModal

  /** The component's state. */
  datatype HomeState = HomeState(
    bookings: seq<Booking>,
    loading: bool,
    showModal: bool,
    currentBooking: Option<Booking>)

  const Initial := HomeState([], true, false, None)

  /** The snapshot callback: every document becomes a record. */
  function OnSnapshot(st: HomeState, docs: seq<Doc>): (next: HomeState)
    ensures next.bookings == ToRecords(docs) && !next.loading
    ensures next.showModal == st.showModal && next.currentBooking == st.currentBooking
  {
    st.(bookings := ToRecords(docs), loading := false)
  }

  /** The error callback: only the loading flag changes. */
  function OnError(st: HomeState): (next: HomeState)
    ensures next == st.(loading := false)
  {
    st.(loading := false)
  }

  /** `handleBooking(booking)`. */
  function HandleBooking(st: HomeState, b: Booking): (next: HomeState)
    ensures next.currentBooking == Some(b) && next.showModal
    ensures next.bookings == st.bookings && next.loading == st.loading
  {
    st.(currentBooking := Some(b), showModal := true)
  }

  /** `handleCloseModal()`. */
  function HandleCloseModal(st: HomeState): (next: HomeState)
    ensures !next.showModal && next.currentBooking.None?
    ensures next.bookings == st.bookings && next.loading == st.loading
  {
    st.(showModal := false, currentBooking := None)
  }

  /** A card: the booking and the seats it shows as available. */
  datatype Card = Card(booking: Booking, seats: int)

  datatype View = Loading | NoClasses | Cards(cards: seq<Card>, dialogFor: Option<Booking>)

  /** One card per booking, in order, each with the seats
      `calculateAvailableSeats` gives. */
  function CardsOf(bookings: seq<Booking>): (cards: seq<Card>)
    ensures |cards| == |bookings|
    ensures forall i :: 0 <= i < |bookings| ==>
              cards[i].booking == bookings[i] && cards[i].seats == AvailableSeats(bookings[i])
  {
    if bookings == [] then []
    else
      var b := bookings[0];
      [Card(b, AvailableSeats(b))] + CardsOf(bookings[1..])
  }

  /** What the page renders: the loading text takes precedence over the
      empty notice, which takes precedence over the cards. The dialog is
      mounted while `showModal` holds and draws itself only for a booking
      (ClassBookModal.js returns nothing without one). */
  function Render(st: HomeState): (v: View)
    ensures v == Loading <==> st.loading
    ensures v == NoClasses <==> !st.loading && st.bookings == []
    ensures v.Cards? ==> v.cards == CardsOf(st.bookings)
    ensures v.Cards? ==> (v.dialogFor.Some? <==> st.showModal && st.currentBooking.Some?)
    ensures v.Cards? && v.dialogFor.Some? ==> v.dialogFor == st.currentBooking
  {
    if st.loading then Loading
    else if |st.bookings| == 0 then NoClasses
    else Cards(CardsOf(st.bookings), if st.showModal then st.currentBooking else None)
  }

  /** Pressing "Book Now" on a loaded page shows the dialog for that very
      booking; closing it removes the dialog. */
  lemma BookNowShowsThatBooking(st: HomeState, b: Booking)
    requires !st.loading && st.bookings != []
    ensures Render(HandleBooking(st, b)).dialogFor == Some(b)
    ensures Render(HandleCloseModal(HandleBooking(st, b))).dialogFor.None?
  {
  }

  /** The dialog the page mounts while `showModal` holds is handed
      `currentBooking`; it draws itself exactly when the page's view has a
      dialog, so pressing "Book Now" always brings up a drawn dialog. */
  lemma DialogDrawsOnlyWithBooking(st: HomeState, m: ClassBookModal.BookModal)
    requires !st.loading && st.bookings != [] && st.showModal
    requires m.booking == st.currentBooking
    ensures Render(st).dialogFor.Some? <==> m.Renders()
  {
  }

  /** After the first snapshot the page shows one card per document, in
      the snapshot's order, unless the collection is empty. */
  lemma FirstSnapshotShowsEveryDocument(docs: seq<Doc>)
    requires docs != []
    ensures Render(OnSnapshot(Initial, docs)).Cards?
    ensures |Render(OnSnapshot(Initial, docs)).cards| == |docs|
    ensures forall i :: 0 <= i < |docs| ==>
              Render(OnSnapshot(Initial, docs)).cards[i].booking.data == docs[i].data
  {
  }

  /** A full class shows no seat left. */
  lemma FullClassShowsNoSeat(st: HomeState, i: nat)
    requires !st.loading && i < |st.bookings|
    requires st.bookings[i].data.studentsBooked >= st.bookings[i].data.maxStudents
    ensures Render(st).cards[i].seats <= 0
  {
  }
}
