/** The event detail modal: which badges and which footer it shows for the
    signed-in state and the booked / full / booking-in-progress flags. An
    absent flag is false. */
module EventModal {

  datatype Footer =
    | LoginPrompt                              // "Please log in to book events"
    | AlreadyBookedButton                       // disabled
    | EventFullButton                           // disabled
    | BookButton(disabled: bool, caption: string) // "Booking..." or "Book Event"

  datatype Badges = Badges(alreadyBooked: bool, eventFull: bool)

  function SelectBadges(isBooked: bool, isFull: bool): (b: Badges)
    ensures b.alreadyBooked <==> isBooked
    ensures b.eventFull <==> isFull && !isBooked
    ensures !(b.alreadyBooked && b.eventFull)
  {
    Badges(isBooked, isFull && !isBooked)
  }

  function SelectFooter(hasUser: bool, isBooked: bool, isFull: bool, isBooking: bool): (f: Footer)
    ensures !hasUser ==> f == LoginPrompt
    ensures hasUser && isBooked ==> f == AlreadyBookedButton
    ensures hasUser && !isBooked && isFull ==> f == EventFullButton
    ensures f.BookButton? <==> hasUser && !isBooked && !isFull
    ensures f.BookButton? ==> (f.disabled <==> isBooking)
  {
    if !hasUser then LoginPrompt
    else if isBooked then AlreadyBookedButton
    else if isFull then EventFullButton
    else BookButton(isBooking, if isBooking then "Booking..." else "Book Event")
  }

  /** For a signed-in user the footer agrees with the badges: a disabled
      "Already Booked" or "Event Full" button exactly under the badge of the
      same name, and the Book button only when no badge is shown. */
  lemma FooterAgreesWithBadges(isBooked: bool, isFull: bool, isBooking: bool)
    ensures var f := SelectFooter(true, isBooked, isFull, isBooking);
      var b := SelectBadges(isBooked, isFull);
      && (f == AlreadyBookedButton <==> b.alreadyBooked)
      && (f == EventFullButton <==> b.eventFull)
      && (f.BookButton? <==> !b.alreadyBooked && !b.eventFull)
  {
  }
}
