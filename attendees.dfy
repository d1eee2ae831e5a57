/** `sort_attendees`: the attendee list of a calendar event, one
    `{"email": address}` entry per address. */
module Attendees {

  /** One attendee entry. */
  function Attendee(email: string): (r: map<string, string>)
    ensures r.Keys == {"email"} && r["email"] == email
  {
    map["email" := email]
  }

  /** `sort_attendees(emails)`: the entries in the order of the addresses. */
  function SortAttendees(emails: seq<string>): (r: seq<map<string, string>>)
    ensures |r| == |emails|
    ensures forall i :: 0 <= i < |emails| ==> r[i] == Attendee(emails[i])
  {
    if emails == [] then [] else [Attendee(emails[0])] + SortAttendees(emails[1..])
  }

  /** The addresses of a list of entries that have one. */
  function AddressesOf(entries: seq<map<string, string>>): (r: seq<string>)
    requires forall i :: 0 <= i < |entries| ==> "email" in entries[i]
    ensures |r| == |entries|
    ensures forall i :: 0 <= i < |entries| ==> r[i] == entries[i]["email"]
  {
    if entries == [] then [] else [entries[0]["email"]] + AddressesOf(entries[1..])
  }

  /** Reading the addresses back from the entries gives the list, in order
      and with repetitions. */
  lemma AddressesRoundTrip(emails: seq<string>)
    ensures forall i :: 0 <= i < |SortAttendees(emails)| ==> "email" in SortAttendees(emails)[i]
    ensures AddressesOf(SortAttendees(emails)) == emails
  {
  }

  /** Entries of two lists are concatenated as the lists are. */
  lemma {:induction false} SortAttendeesAppend(a: seq<string>, b: seq<string>)
    ensures SortAttendees(a + b) == SortAttendees(a) + SortAttendees(b)
  {
  }
}
