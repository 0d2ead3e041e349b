/**
 * The participant bookkeeping of the application script, as functions on
 * the two stores: the duplicate check of registration, ticket numbers, the
 * entry-status lookup, the statistics panel, deleting and searching, the
 * CSV rows of the export and the countdown's decomposition.
 */
module Registry {
  import opened Collections
  import opened Text
  import opened Prizes
  import opened Records
  import opened Draw

  // ---------------------------------------------------------------- registration

  /** The duplicate test `p.email === email || p.phone === phone` (exact, case-sensitive). */
  function SharesContact(email: string, phone: string): Participant -> bool {
    (p: Participant) => p.email == email || p.phone == phone
  }

  /** `participants.find(...)` of the registration handler. */
  function FindDuplicate(ps: seq<Participant>, email: string, phone: string): (r: Option<Participant>)
    ensures r.None? <==> forall i :: 0 <= i < |ps| ==> ps[i].email != email && ps[i].phone != phone
    ensures r.Some? ==> r.value in ps && (r.value.email == email || r.value.phone == phone)
  {
    Find(SharesContact(email, phone), ps)
  }

  /** No two participants share an email, and no two share a phone. */
  predicate UniqueContacts(ps: seq<Participant>) {
    forall i, j :: 0 <= i < j < |ps| ==> ps[i].email != ps[j].email && ps[i].phone != ps[j].phone
  }

  /** Appending a participant that the duplicate check let through keeps contacts unique. */
  lemma AppendKeepsUnique(ps: seq<Participant>, p: Participant)
    requires UniqueContacts(ps) && FindDuplicate(ps, p.email, p.phone).None?
    ensures UniqueContacts(ps + [p])
  {
  }

  lemma UniqueTail(ps: seq<Participant>)
    requires UniqueContacts(ps) && ps != []
    ensures UniqueContacts(ps[1..])
  {
  }

  lemma UniqueCons(p: Participant, rest: seq<Participant>)
    requires UniqueContacts(rest)
    requires forall i :: 0 <= i < |rest| ==> rest[i].email != p.email && rest[i].phone != p.phone
    ensures UniqueContacts([p] + rest)
  {
  }

  /** Keeping some participants, in order, keeps contacts unique. */
  lemma {:induction false} FilterKeepsUnique(f: Participant -> bool, ps: seq<Participant>)
    requires UniqueContacts(ps)
    ensures UniqueContacts(Filter(f, ps))
  {
    if ps != [] {
      var rest := Filter(f, ps[1..]);
      UniqueTail(ps);
      FilterKeepsUnique(f, ps[1..]);
      if f(ps[0]) {
        forall i | 0 <= i < |rest| ensures rest[i].email != ps[0].email && rest[i].phone != ps[0].phone {
          var k :| 0 <= k < |ps[1..]| && ps[1..][k] == rest[i];
          assert ps[k + 1] == rest[i];
        }
        UniqueCons(ps[0], rest);
      }
    }
  }

  /** The record the registration handler appends: a fresh participant with status `Active`. */
  function NewParticipant(id: int, ticket: string, fullName: string, phone: string, email: string,
                          receipt: string, registeredAt: string): (p: Participant)
    ensures p.status == Active && p.ticketNumber == ticket
    ensures p.email == email && p.phone == phone && p.fullName == fullName
  {
    Participant(id, ticket, fullName, phone, email, receipt, registeredAt, Active)
  }

  // ---------------------------------------------------------------- tickets

  /**
   * `generateTicketNumber`: "LJ", the last two characters of the year, and
   * `Math.floor(100000 + Math.random() * 900000)`, whose random part is `k`.
   */
  function TicketNumber(year: nat, k: nat): (t: string)
    requires k < 900000
    ensures |t| >= 2 && t[..2] == "LJ"
    ensures 9 <= |t| <= 10
  {
    SixDigits(100000 + k);
    "LJ" + LastTwo(NatToString(year)) + NatToString(100000 + k)
  }

  lemma SixDigits(n: nat)
    requires 100000 <= n <= 999999
    ensures |NatToString(n)| == 6
  {
    assert Pow10(5) == 100000 && Pow10(6) == 1000000;
    NatToStringLength(n, 6);
  }

  /** From year 10 on, `slice(-2)` of the year's decimal string is its last two digits. */
  lemma YearSuffix(year: nat)
    requires year >= 10
    ensures LastTwo(NatToString(year)) == [DigitChar(year / 10 % 10), DigitChar(year % 10)]
  {
  }

  /** The last six characters of a ticket are the decimal string of its number part. */
  lemma TicketSuffix(year: nat, k: nat)
    requires k < 900000
    ensures |TicketNumber(year, k)| >= 8
    ensures TicketNumber(year, k)[|TicketNumber(year, k)| - 6..] == NatToString(100000 + k)
  {
    var y, d := LastTwo(NatToString(year)), NatToString(100000 + k);
    SixDigits(100000 + k);
    var t := "LJ" + y + d;
    assert t[|t| - 6..] == d;
  }

  /**
   * A ticket is "LJ", the year part, and six digits denoting a number in
   * [100000, 999999]; from year 10 on, the year part is the last two
   * digits of the year and the ticket has ten characters.
   */
  lemma TicketFormat(year: nat, k: nat)
    requires k < 900000
    ensures var t := TicketNumber(year, k);
      && t[..2] == "LJ"
      && |t| >= 8
      && AllDigits(t[|t| - 6..])
      && DigitsValue(t[|t| - 6..]) == 100000 + k
      && 100000 <= DigitsValue(t[|t| - 6..]) <= 999999
      && (year >= 10 ==> |t| == 10 && t[2] == DigitChar(year / 10 % 10) && t[3] == DigitChar(year % 10))
  {
    var y, d := LastTwo(NatToString(year)), NatToString(100000 + k);
    var t := "LJ" + y + d;
    assert |d| == 6 by {
      SixDigits(100000 + k);
    }
    assert t[..2] == "LJ";
    assert t[|t| - 6..] == d;
    NatToStringRoundTrip(100000 + k);
    if year >= 10 {
      YearSuffix(year);
      assert t[2] == y[0] && t[3] == y[1];
    }
  }

  /** The random part read back from a ticket: its last six digits, less 100000. */
  function TicketRandomPart(t: string): int {
    if |t| >= 6 && AllDigits(t[|t| - 6..]) then DigitsValue(t[|t| - 6..]) - 100000 else -1
  }

  /** Reading the random part back from a generated ticket gives the random part. */
  lemma TicketRoundTrip(year: nat, k: nat)
    requires k < 900000
    ensures TicketRandomPart(TicketNumber(year, k)) == k
  {
    TicketSuffix(year, k);
    NatToStringRoundTrip(100000 + k);
  }

  /** Within one year, different random parts give different tickets (and nothing else is checked). */
  lemma TicketDeterminesRandomPart(year: nat, k1: nat, k2: nat)
    requires k1 < 900000 && k2 < 900000
    requires TicketNumber(year, k1) == TicketNumber(year, k2)
    ensures k1 == k2
  {
    TicketRoundTrip(year, k1);
    TicketRoundTrip(year, k2);
  }

  // ---------------------------------------------------------------- entry status

  /** The lookup test: lowercased emails equal, or phones equal exactly. */
  function EntryMatches(input: string): Participant -> bool {
    (p: Participant) => Lower(p.email) == Lower(input) || p.phone == input
  }

  datatype EntryStatus =
    | NoEntry
    | Entry(participant: Participant, statusText: string, prize: Option<string>)

  /**
   * `checkEntryStatus`: the first participant matching the input, the
   * status line it shows, and the prize of the first winner record with
   * its ticket, if any.
   */
  function CheckEntryStatus(ps: seq<Participant>, ws: seq<WinnerRecord>, input: string): (r: EntryStatus)
    ensures r.NoEntry? <==>
              forall i :: 0 <= i < |ps| ==> Lower(ps[i].email) != Lower(input) && ps[i].phone != input
    ensures r.Entry? ==>
              exists i :: 0 <= i < |ps| && ps[i] == r.participant
                && (Lower(ps[i].email) == Lower(input) || ps[i].phone == input)
                && forall j :: 0 <= j < i ==> Lower(ps[j].email) != Lower(input) && ps[j].phone != input
    ensures r.Entry? ==> r.statusText == (if r.participant.status == Active then "Active" else "Inactive")
    ensures r.Entry? ==> (r.prize.Some? <==> HasWon(ws, r.participant.ticketNumber))
    ensures r.Entry? && r.prize.Some? ==>
              exists j :: 0 <= j < |ws| && ws[j].ticketNumber == r.participant.ticketNumber
                && ws[j].prize == r.prize.value
                && forall i :: 0 <= i < j ==> ws[i].ticketNumber != r.participant.ticketNumber
  {
    match Find(EntryMatches(input), ps)
    case None => NoEntry
    case Some(p) =>
      var statusText := if p.status == Active then "Active" else "Inactive";
      match Find(RecordsTicket(p.ticketNumber), ws)
      case None => Entry(p, statusText, None)
      case Some(w) => Entry(p, statusText, Some(w.prize))
  }

  // ---------------------------------------------------------------- statistics

  datatype Statistics = Statistics(totalParticipants: nat, totalWinners: nat, remainingPrizes: int)

  /** `updateStatistics`: the two store sizes and `13 - winners.length`. */
  function GetStatistics(ps: seq<Participant>, ws: seq<WinnerRecord>): (s: Statistics)
    ensures s.totalParticipants == |ps| && s.totalWinners == |ws|
  {
    Statistics(|ps|, |ws|, TOTAL_PRIZES - |ws|)
  }

  /**
   * The remaining-prizes figure is the unused capacity summed over the
   * four categories, hence never negative while every cap holds.
   */
  lemma RemainingIsUnusedCapacity(ps: seq<Participant>, ws: seq<WinnerRecord>)
    requires WithinCaps(ws)
    ensures GetStatistics(ps, ws).remainingPrizes
            == (MaxWinners(Grand) - CountCategory(ws, Grand))
             + (MaxWinners(Second) - CountCategory(ws, Second))
             + (MaxWinners(Third) - CountCategory(ws, Third))
             + (MaxWinners(Consolation) - CountCategory(ws, Consolation))
    ensures GetStatistics(ps, ws).remainingPrizes >= 0
  {
    CountsAddUp(ws);
    assert TotalCapacity() == TOTAL_PRIZES;
    assert CountCategory(ws, Grand) <= MaxWinners(Grand);
    assert CountCategory(ws, Second) <= MaxWinners(Second);
    assert CountCategory(ws, Third) <= MaxWinners(Third);
    assert CountCategory(ws, Consolation) <= MaxWinners(Consolation);
  }

  // ---------------------------------------------------------------- delete and search

  function IdIsNot(id: int): Participant -> bool {
    (p: Participant) => p.id != id
  }

  /** `deleteParticipant`'s filter: every participant with another id, in order. */
  function WithoutId(ps: seq<Participant>, id: int): (r: seq<Participant>)
    ensures forall i :: 0 <= i < |r| ==> r[i] in ps && r[i].id != id
    ensures forall i :: 0 <= i < |ps| && ps[i].id != id ==> ps[i] in r
  {
    Filter(IdIsNot(id), ps)
  }

  /** Deleting keeps store order, and deleting an id nobody has changes nothing. */
  lemma WithoutIdKeepsOrder(a: seq<Participant>, b: seq<Participant>, id: int)
    ensures WithoutId(a + b, id) == WithoutId(a, id) + WithoutId(b, id)
    ensures (forall i :: 0 <= i < |a| ==> a[i].id != id) ==> WithoutId(a, id) == a
  {
    FilterAppend(IdIsNot(id), a, b);
    if forall i :: 0 <= i < |a| ==> a[i].id != id {
      FilterKeepsAll(IdIsNot(id), a);
    }
  }

  /** The search test of the participants table; an empty term matches everyone. */
  function MatchesTerm(p: Participant, term: string): (b: bool)
    ensures (|| term == Lower(p.fullName) || term == Lower(p.email)
             || term == p.phone || term == Lower(p.ticketNumber)) ==> b
  {
    IncludesSelf(Lower(p.fullName));
    IncludesSelf(Lower(p.email));
    IncludesSelf(p.phone);
    IncludesSelf(Lower(p.ticketNumber));
    || term == ""
    || Includes(Lower(p.fullName), term)
    || Includes(Lower(p.email), term)
    || Includes(p.phone, term)
    || Includes(Lower(p.ticketNumber), term)
  }

  function Matching(term: string): Participant -> bool {
    (p: Participant) => MatchesTerm(p, term)
  }

  /** `loadParticipantsTable`'s filter: the participants matching the term, in order. */
  function SearchParticipants(ps: seq<Participant>, term: string): (r: seq<Participant>)
    ensures |r| <= |ps|
    ensures forall i :: 0 <= i < |r| ==> r[i] in ps && MatchesTerm(r[i], term)
    ensures forall i :: 0 <= i < |ps| && MatchesTerm(ps[i], term) ==> ps[i] in r
  {
    Filter(Matching(term), ps)
  }

  /** The search keeps store order: the result for two stores end to end is their two results end to end. */
  lemma SearchKeepsOrder(a: seq<Participant>, b: seq<Participant>, term: string)
    ensures SearchParticipants(a + b, term) == SearchParticipants(a, term) + SearchParticipants(b, term)
  {
    FilterAppend(Matching(term), a, b);
  }

  /** With no search term the table lists every participant, in order. */
  lemma EmptySearchListsAll(ps: seq<Participant>)
    ensures SearchParticipants(ps, "") == ps
  {
    FilterKeepsAll(Matching(""), ps);
  }

  // ---------------------------------------------------------------- CSV export

  const CSV_HEADER_FIELDS: seq<string> :=
    ["Ticket Number", "Full Name", "Phone", "Email", "Receipt Number", "Status", "Prize Won", "Registered At"]

  const CSV_HEADER: string := JoinComma(CSV_HEADER_FIELDS) + "\n"

  /** The eight fields of one participant's CSV line. */
  function CsvFields(p: Participant, ws: seq<WinnerRecord>): (fs: seq<string>)
    ensures |fs| == 8
    ensures fs[0] == p.ticketNumber && fs[1] == p.fullName && fs[2] == p.phone && fs[3] == p.email
    ensures fs[4] == if p.receiptNumber == "" then "N/A" else p.receiptNumber
    ensures fs[5] == "Winner" <==> HasWon(ws, p.ticketNumber)
    ensures !HasWon(ws, p.ticketNumber) ==> fs[5] == "Active" && fs[6] == "\"N/A\""
    ensures HasWon(ws, p.ticketNumber) ==>
              exists j :: 0 <= j < |ws| && ws[j].ticketNumber == p.ticketNumber
                && fs[6] == "\"" + ws[j].prize + "\""
                && forall i :: 0 <= i < j ==> ws[i].ticketNumber != p.ticketNumber
    ensures fs[7] == p.registeredAt
  {
    var winner := Find(RecordsTicket(p.ticketNumber), ws);
    var status := if winner.Some? then "Winner" else "Active";
    var prize := if winner.Some? then winner.value.prize else "N/A";
    [p.ticketNumber, p.fullName, p.phone, p.email,
     if p.receiptNumber == "" then "N/A" else p.receiptNumber,
     status, "\"" + prize + "\"", p.registeredAt]
  }

  function CsvRow(p: Participant, ws: seq<WinnerRecord>): (line: string)
    ensures |line| >= 1 && line[|line| - 1] == '\n'
  {
    JoinComma(CsvFields(p, ws)) + "\n"
  }

  /** The data lines of the export, one per participant in store order. */
  function CsvRows(ps: seq<Participant>, ws: seq<WinnerRecord>): (rows: string)
    ensures |rows| >= |ps|
    ensures rows == "" <==> ps == []
  {
    if ps == [] then "" else CsvRows(ps[..|ps| - 1], ws) + CsvRow(ps[|ps| - 1], ws)
  }

  /** Writing one more participant adds that participant's row at the end. */
  lemma CsvRowsExtend(header: string, ps: seq<Participant>, ws: seq<WinnerRecord>, i: nat)
    requires i < |ps|
    ensures header + CsvRows(ps[..i + 1], ws) == header + CsvRows(ps[..i], ws) + CsvRow(ps[i], ws)
  {
    assert ps[..i + 1][..i] == ps[..i];
  }

  /** No field the export copies holds a line break. */
  predicate SingleLine(ps: seq<Participant>, ws: seq<WinnerRecord>) {
    && (forall i :: 0 <= i < |ps| ==>
          && '\n' !in ps[i].ticketNumber && '\n' !in ps[i].fullName && '\n' !in ps[i].phone
          && '\n' !in ps[i].email && '\n' !in ps[i].receiptNumber && '\n' !in ps[i].registeredAt)
    && forall j :: 0 <= j < |ws| ==> '\n' !in ws[j].prize
  }

  lemma RowIsOneLine(p: Participant, ws: seq<WinnerRecord>)
    requires SingleLine([p], ws)
    ensures CountChar(CsvRow(p, ws), '\n') == 1
  {
    var fs := CsvFields(p, ws);
    assert [p][0] == p;
    forall i | 0 <= i < |fs| ensures '\n' !in fs[i] {
      if i == 6 {
        if HasWon(ws, p.ticketNumber) {
          var j :| 0 <= j < |ws| && ws[j].ticketNumber == p.ticketNumber && fs[6] == "\"" + ws[j].prize + "\"";
          assert '\n' !in ws[j].prize;
        }
      }
    }
    JoinCommaFree(fs, '\n');
    CountCharAppend(JoinComma(fs), "\n", '\n');
  }

  /** One line per participant. */
  lemma {:induction false} RowsLineCount(ps: seq<Participant>, ws: seq<WinnerRecord>)
    requires SingleLine(ps, ws)
    ensures CountChar(CsvRows(ps, ws), '\n') == |ps|
  {
    if ps != [] {
      var init, last := ps[..|ps| - 1], ps[|ps| - 1];
      assert SingleLine(init, ws) by {
        forall i | 0 <= i < |init| ensures init[i] == ps[i] { }
      }
      assert SingleLine([last], ws) by {
        assert [last][0] == ps[|ps| - 1];
      }
      RowsLineCount(init, ws);
      RowIsOneLine(last, ws);
      CountCharAppend(CsvRows(init, ws), CsvRow(last, ws), '\n');
    }
  }

  /** The header is one line. */
  lemma HeaderIsOneLine()
    ensures CountChar(CSV_HEADER, '\n') == 1
  {
    assert forall i :: 0 <= i < |CSV_HEADER_FIELDS| ==> '\n' !in CSV_HEADER_FIELDS[i];
    JoinCommaFree(CSV_HEADER_FIELDS, '\n');
    CountCharAppend(JoinComma(CSV_HEADER_FIELDS), "\n", '\n');
  }

  /** The whole export: header line plus one line per participant. */
  lemma ExportLineCount(ps: seq<Participant>, ws: seq<WinnerRecord>)
    requires SingleLine(ps, ws)
    ensures CountChar(CSV_HEADER + CsvRows(ps, ws), '\n') == |ps| + 1
  {
    HeaderIsOneLine();
    RowsLineCount(ps, ws);
    CountCharAppend(CSV_HEADER, CsvRows(ps, ws), '\n');
  }

  // ---------------------------------------------------------------- countdown

  const MS_PER_SECOND: int := 1000
  const MS_PER_MINUTE: int := 1000 * 60
  const MS_PER_HOUR: int := 1000 * 60 * 60
  const MS_PER_DAY: int := 1000 * 60 * 60 * 24

  datatype Countdown = Countdown(days: int, hours: int, minutes: int, seconds: int)

  /**
   * The countdown's figures for a distance in milliseconds; a past draw
   * date shows zeros. (`Math.floor` and `%` agree with Dafny's division
   * on the non-negative distances they are applied to.)
   */
  function CountdownParts(distance: int): (c: Countdown)
    ensures distance < 0 ==> c == Countdown(0, 0, 0, 0)
  {
    if distance < 0 then Countdown(0, 0, 0, 0)
    else Countdown(distance / MS_PER_DAY,
                   (distance % MS_PER_DAY) / MS_PER_HOUR,
                   (distance % MS_PER_HOUR) / MS_PER_MINUTE,
                   (distance % MS_PER_MINUTE) / MS_PER_SECOND)
  }

  /**
   * For a future draw the figures are in range and make up the distance
   * to within the milliseconds the display drops.
   */
  lemma CountdownRecomposes(distance: int)
    requires distance >= 0
    ensures var c := CountdownParts(distance);
      && c.days >= 0 && 0 <= c.hours < 24 && 0 <= c.minutes < 60 && 0 <= c.seconds < 60
      && 0 <= distance - (c.days * MS_PER_DAY + c.hours * MS_PER_HOUR
                          + c.minutes * MS_PER_MINUTE + c.seconds * MS_PER_SECOND) < 1000
  {
    var d := distance;
    var days, rd := d / 86400000, d % 86400000;
    var hours, rh := rd / 3600000, rd % 3600000;
    var minutes, rm := rh / 60000, rh % 60000;
    var seconds := rm / 1000;
    assert d % 3600000 == rh by {
      assert d == (days * 24 + hours) * 3600000 + rh;
      DivModUnique(d, 3600000, days * 24 + hours, rh);
    }
    assert d % 60000 == rm by {
      assert d == ((days * 24 + hours) * 60 + minutes) * 60000 + rm;
      DivModUnique(d, 60000, (days * 24 + hours) * 60 + minutes, rm);
    }
  }

  lemma DivModUnique(a: int, d: int, q: int, r: int)
    requires 0 < d && 0 <= r < d && a == q * d + r
    ensures a % d == r
  {
    DivUnique(a, d, q, r);
  }
}
