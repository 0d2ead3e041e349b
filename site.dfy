/**
 * The page both scripts run on, as one object: the two lists kept in
 * local storage (participants and winners) and the draw page's state (the
 * selected category, the `isSpinning` flag, whether the spin and start
 * buttons are enabled, the winner fixed while the wheel turns, and the
 * `showWinner` calls waiting on their timer).
 *
 * Every handler is a method. A click on a disabled button never reaches
 * its handler, so the handlers of the two buttons do nothing while their
 * button is disabled. Random numbers, clock readings and ids are
 * parameters.
 */
module Site {
  import opened Collections
  import opened Prizes
  import opened Records
  import opened Draw
  import opened Registry

  /** A draw whose winner is fixed: the participant picked and the category it was drawn for. */
  datatype Pending = Pending(winner: Participant, category: Category)

  datatype RegisterOutcome = Duplicate | Registered(ticket: string)

  datatype StartOutcome = StartIgnored | CategoryFull | NoParticipants | Armed

  datatype SpinOutcome = SpinIgnored | AlreadySpinning | NoEligible | Spinning(winner: Participant)

  /** Contacts are unique, and a participant marked as winner has a winner record. */
  ghost predicate StoresValid(ps: seq<Participant>, ws: seq<WinnerRecord>) {
    && UniqueContacts(ps)
    && forall i :: 0 <= i < |ps| && ps[i].status == Winner ==> HasWon(ws, ps[i].ticketNumber)
  }

  /** Committing a draw keeps the stores valid. */
  lemma CommitKeepsStoresValid(ps: seq<Participant>, ws: seq<WinnerRecord>, r: WinnerRecord, t: string)
    requires StoresValid(ps, ws) && r.ticketNumber == t
    ensures StoresValid(MarkWinner(ps, t), ws + [r])
  {
    var marked := MarkWinner(ps, t);
    forall i | 0 <= i < |marked| && marked[i].status == Winner ensures HasWon(ws + [r], marked[i].ticketNumber) {
      HasWonAppend(ws, r, marked[i].ticketNumber);
      if FirstWithTicket(ps, r.ticketNumber, i) {
        CommittedTicketLeavesPool([], ws, r);
      }
    }
  }

  class LuckyDraw {
    var participants: seq<Participant>
    var winners: seq<WinnerRecord>
    var category: Category
    var isSpinning: bool
    var spinEnabled: bool
    var startEnabled: bool
    /** The winner chosen when the wheel started, while it animates. */
    var spinning: Option<Pending>
    /** `showWinner` calls scheduled by the end of an animation and not yet run, oldest first. */
    var scheduled: seq<Pending>

    /**
     * What every handler keeps: contacts are unique, a participant marked
     * as winner has a winner record, and the flag shows whether a wheel is
     * turning.
     */
    ghost predicate Valid()
      reads this
    {
      StoresValid(participants, winners) && (isSpinning <==> spinning.Some?)
    }

    /**
     * What the draw is meant to guarantee: every cap holds, no ticket has
     * won twice, an enabled spin button means the selected category has
     * room, and a winner on the turning wheel is still unrecorded in a
     * category with room. It also says that no `showWinner` is waiting,
     * which the as-written animation end breaks.
     */
    ghost predicate Safe()
      reads this
    {
      && LedgerValid(winners)
      && scheduled == []
      && (spinEnabled ==> CanDrawPrize(winners, category))
      && (spinning.Some? ==>
            && !HasWon(winners, spinning.value.winner.ticketNumber)
            && CanDrawPrize(winners, spinning.value.category))
    }

    /** A first page load: both stores initialised empty, nothing spinning, only Start enabled. */
    constructor (initial: Category)
      ensures Valid() && Safe()
      ensures participants == [] && winners == [] && category == initial
      ensures !isSpinning && !spinEnabled && startEnabled && spinning == None && scheduled == []
    {
      participants := [];
      winners := [];
      category := initial;
      isSpinning := false;
      spinEnabled := false;
      startEnabled := true;
      spinning := None;
      scheduled := [];
    }

    // ---------------------------------------------------------------- app.js

    /**
     * The registration handler: rejected when an email or a phone is taken,
     * otherwise one new active participant with a generated ticket at the end.
     */
    method Register(fullName: string, phone: string, email: string, receiptNumber: string,
                    id: int, registeredAt: string, year: nat, k: nat) returns (outcome: RegisterOutcome)
      requires Valid() && k < 900000
      modifies this`participants
      ensures Valid()
      ensures outcome.Duplicate? <==> FindDuplicate(old(participants), email, phone).Some?
      ensures outcome.Duplicate? ==> participants == old(participants)
      ensures outcome.Registered? ==>
                && outcome.ticket == TicketNumber(year, k)
                && participants == old(participants)
                     + [NewParticipant(id, outcome.ticket, fullName, phone, email, receiptNumber, registeredAt)]
      ensures old(Safe()) ==> Safe()
    {
      if FindDuplicate(participants, email, phone).Some? {
        return Duplicate;
      }
      var ticket := TicketNumber(year, k);
      var p := NewParticipant(id, ticket, fullName, phone, email, receiptNumber, registeredAt);
      AppendKeepsUnique(participants, p);
      participants := participants + [p];
      outcome := Registered(ticket);
    }

    /** `deleteParticipant` after a confirmed dialog: every participant with another id stays, in order. */
    method DeleteParticipant(id: int)
      requires Valid()
      modifies this`participants
      ensures Valid()
      ensures participants == WithoutId(old(participants), id)
      ensures old(Safe()) ==> Safe()
    {
      ghost var before := participants;
      FilterKeepsUnique(IdIsNot(id), participants);
      participants := WithoutId(participants, id);
      forall i | 0 <= i < |participants| && participants[i].status == Winner
        ensures HasWon(winners, participants[i].ticketNumber)
      {
        var k :| 0 <= k < |before| && before[k] == participants[i];
      }
    }

    /** The reset after both confirmations: both stores emptied, then the page reloads. */
    method Reset()
      modifies this
      ensures Valid() && Safe()
      ensures participants == [] && winners == [] && category == old(category)
      ensures !isSpinning && !spinEnabled && startEnabled && spinning == None && scheduled == []
    {
      participants := [];
      winners := [];
      isSpinning := false;
      spinEnabled := false;
      startEnabled := true;
      spinning := None;
      scheduled := [];
    }

    /** `exportToCSV` up to the download: nothing for an empty store, else header and one row per participant. */
    method ExportToCSV() returns (csv: Option<string>)
      ensures csv.None? <==> participants == []
      ensures csv.Some? ==> csv.value == CSV_HEADER + CsvRows(participants, winners)
    {
      if participants == [] {
        return None;
      }
      var header := CSV_HEADER;
      var text := header;
      for i := 0 to |participants|
        invariant text == header + CsvRows(participants[..i], winners)
      {
        CsvRowsExtend(header, participants, winners, i);
        text := text + CsvRow(participants[i], winners);
      }
      assert participants[..|participants|] == participants;
      csv := Some(text);
    }

    // ---------------------------------------------------------------- draw.js

    /** The category selector's change handler: the spin is disarmed and Start enabled. */
    method ChangeCategory(c: Category)
      requires Valid()
      modifies this`category, this`spinEnabled, this`startEnabled
      ensures Valid()
      ensures category == c && !spinEnabled && startEnabled
      ensures old(Safe()) ==> Safe()
    {
      category := c;
      spinEnabled := false;
      startEnabled := true;
    }

    /**
     * The Start button: refused when the selected category is full or the
     * store is empty (the whole store, not the pool); otherwise the spin is
     * armed and Start disabled.
     */
    method StartDraw() returns (outcome: StartOutcome)
      requires Valid()
      modifies this`spinEnabled, this`startEnabled
      ensures Valid()
      ensures outcome == if !old(startEnabled) then StartIgnored
                         else if !CanDrawPrize(winners, category) then CategoryFull
                         else if participants == [] then NoParticipants
                         else Armed
      ensures outcome == Armed ==> spinEnabled && !startEnabled
      ensures outcome != Armed ==> spinEnabled == old(spinEnabled) && startEnabled == old(startEnabled)
      ensures old(Safe()) ==> Safe()
    {
      if !startEnabled {
        return StartIgnored;
      }
      if !CanDrawPrize(winners, category) {
        return CategoryFull;
      }
      if participants == [] {
        return NoParticipants;
      }
      spinEnabled := true;
      startEnabled := false;
      outcome := Armed;
    }

    /**
     * The Spin button and `spinWheel` up to the animation: ignored while a
     * wheel turns; with an empty pool the flag is cleared and the button
     * re-enabled; otherwise the pool index `Math.random()` selects fixes
     * the winner and the wheel starts turning.
     */
    method ClickSpin(num: nat, den: nat) returns (outcome: SpinOutcome)
      requires Valid() && num < den
      modifies this`isSpinning, this`spinEnabled, this`spinning
      ensures Valid()
      ensures !old(spinEnabled) || old(isSpinning) ==>
                && outcome == (if !old(spinEnabled) then SpinIgnored else AlreadySpinning)
                && isSpinning == old(isSpinning) && spinEnabled == old(spinEnabled) && spinning == old(spinning)
      ensures old(spinEnabled) && !old(isSpinning) && Eligible(participants, winners) == [] ==>
                outcome == NoEligible && !isSpinning && spinEnabled && spinning == None
      ensures old(spinEnabled) && !old(isSpinning) && Eligible(participants, winners) != [] ==>
                var pool := Eligible(participants, winners);
                && outcome == Spinning(pool[SelectIndex(num, den, |pool|)])
                && isSpinning && !spinEnabled && spinning == Some(Pending(outcome.winner, category))
      ensures outcome.Spinning? ==> outcome.winner in participants && !HasWon(winners, outcome.winner.ticketNumber)
      ensures old(Safe()) ==> Safe()
    {
      if !spinEnabled {
        return SpinIgnored;
      }
      if isSpinning {
        return AlreadySpinning;
      }
      isSpinning := true;
      spinEnabled := false;
      var pool := Eligible(participants, winners);
      if |pool| == 0 {
        isSpinning := false;
        spinEnabled := true;
        return NoEligible;
      }
      var winner := pool[SelectIndex(num, den, |pool|)];
      spinning := Some(Pending(winner, category));
      outcome := Spinning(winner);
    }

    /**
     * The persistence part of `showWinner`: one record appended to the
     * winners, and the first participant holding the ticket marked as winner.
     */
    method ShowWinner(d: Pending, id: int, drawnAt: string)
      requires Valid()
      modifies this`winners, this`participants
      ensures Valid()
      ensures winners == old(winners) + [WinnerRecordOf(d.winner, d.category, id, drawnAt)]
      ensures participants == MarkWinner(old(participants), d.winner.ticketNumber)
    {
      var r := WinnerRecordOf(d.winner, d.category, id, drawnAt);
      CommitKeepsStoresValid(participants, winners, r, d.winner.ticketNumber);
      winners := winners + [r];
      participants := MarkWinner(participants, d.winner.ticketNumber);
    }

    /**
     * The end of the animation as written: the flag is cleared, Start is
     * enabled, and `showWinner` is only scheduled, 500 ms later.
     */
    method AnimationEnd()
      requires Valid() && spinning.Some?
      modifies this`isSpinning, this`spinEnabled, this`startEnabled, this`spinning, this`scheduled
      ensures Valid()
      ensures !isSpinning && !spinEnabled && startEnabled && spinning == None
      ensures scheduled == old(scheduled) + [old(spinning).value]
    {
      scheduled := scheduled + [spinning.value];
      StopWheel();
    }

    /** The timer of the oldest scheduled `showWinner` fires and commits that draw. */
    method RevealTimeout(id: int, drawnAt: string)
      requires Valid()
      modifies this`scheduled, this`winners, this`participants
      ensures Valid()
      ensures old(scheduled) == [] ==>
                scheduled == [] && winners == old(winners) && participants == old(participants)
      ensures old(scheduled) != [] ==>
                var d := old(scheduled)[0];
                && scheduled == old(scheduled)[1..]
                && winners == old(winners) + [WinnerRecordOf(d.winner, d.category, id, drawnAt)]
                && participants == MarkWinner(old(participants), d.winner.ticketNumber)
      ensures old(Safe()) ==> Safe()
    {
      if scheduled != [] {
        var d := scheduled[0];
        scheduled := scheduled[1..];
        ShowWinner(d, id, drawnAt);
      }
    }

    /** The wheel stops: the flag is cleared, Spin stays disabled and Start is enabled. */
    method StopWheel()
      requires Valid()
      modifies this`isSpinning, this`spinEnabled, this`startEnabled, this`spinning
      ensures Valid()
      ensures !isSpinning && !spinEnabled && startEnabled && spinning == None
    {
      isSpinning, spinEnabled, startEnabled, spinning := false, false, true, None;
    }

    /**
     * The end of the animation with the commit made at once: the winner is
     * recorded before Start is enabled again. This keeps `Safe`, so a full
     * category or a ticket that has won can never be drawn.
     */
    method FinishDraw(id: int, drawnAt: string)
      requires Valid() && spinning.Some?
      modifies this`isSpinning, this`spinEnabled, this`startEnabled, this`spinning, this`winners, this`participants
      ensures Valid()
      ensures !isSpinning && !spinEnabled && startEnabled && spinning == None
      ensures winners == old(winners) + [WinnerRecordOf(old(spinning).value.winner, old(spinning).value.category, id, drawnAt)]
      ensures participants == MarkWinner(old(participants), old(spinning).value.winner.ticketNumber)
      ensures CountCategory(winners, old(spinning).value.category) == CountCategory(old(winners), old(spinning).value.category) + 1
      ensures old(Safe()) ==> Safe()
    {
      var d := spinning.value;
      var r := WinnerRecordOf(d.winner, d.category, id, drawnAt);
      CountAfterAppend(winners, r, d.category);
      if Safe() {
        CommitKeepsLedgerValid(winners, r);
      }
      ShowWinner(d, id, drawnAt);
      StopWheel();
    }
  }
}
