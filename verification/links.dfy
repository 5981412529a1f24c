/** The booking link of `create_affiliate_link`: the stations as typed, the date
    parsed once more and re-emitted as `%d%m%Y`, and the affiliate tag. */
module Links {
  import opened Wrappers
  import opened Text
  import opened Dates

  const BaseUrl: string := "https://www.makemytrip.com/railways"
  const AffiliateId: string := "YOUR_AFFILIATE_ID_HERE"

  /** `strftime("%d%m%Y")`: two-digit day, two-digit month, then the year. The
      year is written without padding, which only matters below 1000. */
  function CompactDate(d: Date): (c: string)
    requires IsCalendarDate(d)
    ensures AllDigits(c)
    ensures d.year >= 1000 ==> |c| == 8
  {
    DecimalFourDigits(d.year);
    PadTwo(d.day) + PadTwo(d.month) + Decimal(d.year)
  }

  /** How an eight-digit `DDMMYYYY` segment is read back as a date. */
  function ReadCompact(c: string): Option<Date> {
    if |c| == 8 && AllDigits(c) then
      Some(Date(DigitsValue(c[..2]), DigitsValue(c[2..4]), DigitsValue(c[4..])))
    else None
  }

  /** The text in front of the date segment. */
  function LinkHead(from: string, to: string): string {
    BaseUrl + "?from=" + from + "&to=" + to + "&date="
  }

  /** The text after the date segment. */
  const LinkTail: string := "&affiliateId=" + AffiliateId

  /** The link for a stored date that has already passed the date check; the
      source parses it again and would raise on anything else. Stations are
      pasted in without URL escaping. */
  function AffiliateLink(from: string, to: string, date: string): (url: string)
    requires ParseDate(date).Some?
    ensures |url| > |LinkHead(from, to)| + |LinkTail|
    ensures url[..|LinkHead(from, to)|] == LinkHead(from, to)
    ensures url[|url| - |LinkTail|..] == LinkTail
    ensures forall i :: |LinkHead(from, to)| <= i < |url| - |LinkTail| ==> IsDigit(url[i])
  {
    LinkHead(from, to) + CompactDate(ParseDate(date).value) + LinkTail
  }

  /** The compact segment denotes the date it was made from. */
  lemma CompactDateRoundTrip(d: Date)
    requires IsCalendarDate(d) && d.year >= 1000
    ensures ReadCompact(CompactDate(d)) == Some(d)
  {
    var c := CompactDate(d);
    DecimalFourDigits(d.year);
    assert c[..2] == PadTwo(d.day);
    assert c[2..4] == PadTwo(d.month);
    assert c[4..] == Decimal(d.year);
  }

  /** Reading the link back: it is the head with the stations verbatim, eight
      digits that denote the calendar date of the typed text, and the affiliate
      tail. */
  lemma LinkCarriesDate(from: string, to: string, date: string)
    requires ParseDate(date).Some? && ParseDate(date).value.year >= 1000
    ensures var url := AffiliateLink(from, to, date);
      var k := |LinkHead(from, to)|;
      && |url| == k + 8 + |LinkTail|
      && url[..k] == LinkHead(from, to)
      && ReadCompact(url[k..k + 8]) == ParseDate(date)
      && url[k + 8..] == LinkTail
  {
    var d := ParseDate(date).value;
    var url := AffiliateLink(from, to, date);
    var k := |LinkHead(from, to)|;
    var c := CompactDate(d);
    assert url[k..k + 8] == c;
    CompactDateRoundTrip(d);
  }

  /** Two spellings of the same date give the same link. */
  lemma SameDateSameLink(from: string, to: string, date1: string, date2: string)
    requires ParseDate(date1).Some? && ParseDate(date1) == ParseDate(date2)
    ensures AffiliateLink(from, to, date1) == AffiliateLink(from, to, date2)
  {
  }

  /** For a date typed in the padded `DD-MM-YYYY` form the segment is the typed
      digits with the hyphens taken out. */
  lemma CanonicalSegmentDropsHyphens(date: string)
    requires |date| == 10 && ParseDate(date).Some? && ParseDate(date).value.year >= 1000
    ensures CompactDate(ParseDate(date).value) == date[..2] + date[3..5] + date[6..]
  {
    var d := ParseDate(date).value;
    ParseDateIsStrptime(date, d);
    assert HasShape(date, 2, 2) && ShapeFields(date, 2, 2) == d;
    PadTwoOfDigits(date[..2]);
    PadTwoOfDigits(date[3..5]);
    DecimalOfFourDigits(date[6..]);
  }

  /** 1 January 2026 is written `01012026`. */
  lemma NewYear2026Segment()
    ensures CompactDate(Date(1, 1, 2026)) == "01012026"
  {
    assert DigitChar(0) == '0' && DigitChar(1) == '1';
    assert PadTwo(1) == "01";
    FourDigitsValue("2026");
    DecimalOfFourDigits("2026");
  }

  /** `1-1-2026` becomes `01012026`: the link pads what the user left unpadded. */
  lemma UnpaddedDateSegment()
    ensures ParseDate("1-1-2026") == Some(Date(1, 1, 2026))
    ensures CompactDate(ParseDate("1-1-2026").value) == "01012026"
  {
    UnpaddedAccepted();
    NewYear2026Segment();
  }

  /** `01-01-2026` becomes `01012026` as well. */
  lemma PaddedDateSegment()
    ensures ParseDate("01-01-2026") == Some(Date(1, 1, 2026))
    ensures CompactDate(ParseDate("01-01-2026").value) == "01012026"
  {
    PaddedAccepted();
    NewYear2026Segment();
  }

  /** 15 January 2026 is written `15012026`. */
  lemma PromptDateSegment()
    ensures CompactDate(Date(15, 1, 2026)) == "15012026"
  {
    assert DigitChar(0) == '0' && DigitChar(1) == '1' && DigitChar(5) == '5';
    assert PadTwo(15) == "15" && PadTwo(1) == "01";
    FourDigitsValue("2026");
    DecimalOfFourDigits("2026");
  }

  /** The trip from Mumbai to Delhi on 15-01-2026 links with `from=Mumbai`,
      `to=Delhi` and `date=15012026`. */
  lemma MumbaiDelhiLink()
    ensures ParseDate("15-01-2026") == Some(Date(15, 1, 2026))
    ensures AffiliateLink("Mumbai", "Delhi", "15-01-2026") == LinkHead("Mumbai", "Delhi") + "15012026" + LinkTail
  {
    PromptExampleAccepted();
    PromptDateSegment();
  }

  /** The text in front of the date segment for that trip. */
  lemma MumbaiDelhiHead()
    ensures LinkHead("Mumbai", "Delhi") == "https://www.makemytrip.com/railways?from=Mumbai&to=Delhi&date="
  {
  }

  /** Station names are not escaped: an origin that contains `&to=` gives the
      same link as a destination that does, so the link does not determine the
      stations. */
  lemma StationsNotEscaped(x: string, y: string, z: string, date: string)
    requires ParseDate(date).Some?
    ensures AffiliateLink(x + "&to=" + y, z, date) == AffiliateLink(x, y + "&to=" + z, date)
  {
    assert LinkHead(x + "&to=" + y, z) == LinkHead(x, y + "&to=" + z);
  }
}
