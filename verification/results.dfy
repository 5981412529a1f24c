/** The reply built from a non-empty search result: a header naming the trip, at
    most ten numbered train entries in the order the search returned them, and
    the booking link. Emoji and Markdown decoration are not modelled; each entry
    keeps the values its lines print. */
module Results {
  import opened Wrappers
  import opened Dates
  import Links

  /** One train as the search collaborator describes it. `availability` is the
      optional `availability` key of the record. */
  datatype TrainRecord = TrainRecord(
    name: string,
    number: string,
    departure: string,
    arrival: string,
    duration: string,
    availability: Option<string>)

  /** The trip the search is asked about: the stored origin, destination and date. */
  datatype Query = Query(from: string, to: string, date: string)

  /** One numbered entry of the reply. `seats` is the availability line, present
      only when the record's availability is truthy. */
  datatype Entry = Entry(
    ordinal: nat,
    name: string,
    number: string,
    departure: string,
    arrival: string,
    duration: string,
    seats: Option<string>)

  /** The whole results reply: header fields, entries and link. */
  datatype Listing = Listing(from: string, to: string, date: string, entries: seq<Entry>, link: string)

  /** At most this many trains are listed. */
  const MaxShown: nat := 10

  /** Python's `train.get('availability')` is truthy: the key is there and the
      text is not empty. */
  predicate ShowsAvailability(t: TrainRecord) {
    t.availability.Some? && |t.availability.value| > 0
  }

  function Min(a: nat, b: nat): nat {
    if a <= b then a else b
  }

  /** The entry printed for train `t` under number `ordinal`. */
  function EntryFor(ordinal: nat, t: TrainRecord): (e: Entry)
    ensures Describes(e, ordinal, t)
  {
    Entry(ordinal, t.name, t.number, t.departure, t.arrival, t.duration,
          if ShowsAvailability(t) then t.availability else None)
  }

  /** `e` is what the reply prints for train `t` at position `ordinal`: every field
      verbatim, and the availability line exactly when the availability is truthy. */
  predicate Describes(e: Entry, ordinal: nat, t: TrainRecord) {
    && e.ordinal == ordinal
    && e.name == t.name && e.number == t.number
    && e.departure == t.departure && e.arrival == t.arrival && e.duration == t.duration
    && (e.seats.Some? <==> ShowsAvailability(t))
    && (e.seats.Some? ==> e.seats == t.availability)
  }

  /** The loop body of `enumerate(trains, first)`: one entry per train, numbered
      from `first` up, in order. */
  function Numbered(trains: seq<TrainRecord>, first: nat): (es: seq<Entry>)
    ensures |es| == |trains|
    ensures forall k :: 0 <= k < |es| ==> Describes(es[k], first + k, trains[k])
  {
    if |trains| == 0 then []
    else [EntryFor(first, trains[0])] + Numbered(trains[1..], first + 1)
  }

  /** `enumerate(trains[:10], 1)`: the first ten trains at most, numbered from 1,
      in the order the search returned them. */
  function FormatEntries(trains: seq<TrainRecord>): (es: seq<Entry>)
    ensures |es| == Min(MaxShown, |trains|)
    ensures forall k :: 0 <= k < |es| ==> Describes(es[k], k + 1, trains[k])
  {
    Numbered(trains[..Min(MaxShown, |trains|)], 1)
  }

  /** The full reply for the stored query and the trains found: the header names
      the query as stored, the entries describe the first ten trains in order, and
      the link is the affiliate link for the same query. */
  function FormatListing(q: Query, trains: seq<TrainRecord>): (l: Listing)
    requires ParseDate(q.date).Some?
    ensures l.from == q.from && l.to == q.to && l.date == q.date
    ensures |l.entries| == Min(MaxShown, |trains|)
    ensures forall k :: 0 <= k < |l.entries| ==> Describes(l.entries[k], k + 1, trains[k])
    ensures l.link == Links.AffiliateLink(q.from, q.to, q.date)
  {
    Listing(q.from, q.to, q.date, FormatEntries(trains), Links.AffiliateLink(q.from, q.to, q.date))
  }

  /** Trains past the tenth never reach the reply. */
  lemma OnlyFirstTenMatter(trains: seq<TrainRecord>, extra: seq<TrainRecord>)
    requires |trains| >= MaxShown
    ensures FormatEntries(trains + extra) == FormatEntries(trains)
  {
    assert (trains + extra)[..MaxShown] == trains[..MaxShown];
  }

  /** Entries are determined by the trains they describe: the formatter is the
      map `EntryFor(k + 1, trains[k])` over the shown prefix. */
  lemma EntriesAreDescriptions(trains: seq<TrainRecord>)
    ensures forall k :: 0 <= k < |FormatEntries(trains)| ==> FormatEntries(trains)[k] == EntryFor(k + 1, trains[k])
  {
  }

  /** With twelve trains found, the reply lists exactly trains 1 to 10. */
  lemma TwelveTrainsShowTen(trains: seq<TrainRecord>)
    requires |trains| == 12
    ensures |FormatEntries(trains)| == 10
    ensures forall k :: 0 <= k < 10 ==> FormatEntries(trains)[k].ordinal == k + 1
  {
  }
}
