/**
 * Event sequences on the draw page: the reveal race of the animation end
 * as written, and the same opening with the corrected animation end.
 */
module Scenarios {
  import opened Collections
  import opened Prizes
  import opened Records
  import opened Draw
  import opened Registry
  import opened Site

  /** A first page load followed by one registration. */
  method RaceSetup(year: nat, k: nat) returns (page: LuckyDraw, ann: Participant)
    requires k < 900000
    ensures fresh(page) && page.Valid()
    ensures page.participants == [ann] && page.winners == [] && page.category == Grand
    ensures !page.isSpinning && page.startEnabled && page.scheduled == []
  {
    page := new LuckyDraw(Grand);
    assert FindDuplicate([], "ann@example.com", "5550100").None?;
    var registered := page.Register("Ann Lee", "5550100", "ann@example.com", "", 1, "t0", year, k);
    assert registered.Registered?;
    ann := page.participants[0];
    assert page.participants == [ann];
  }

  /** Start, then Spin, while no winner is recorded yet: the only participant is fixed as the winner. */
  method StartAndSpin(page: LuckyDraw, ann: Participant)
    requires page.Valid() && page.participants == [ann] && page.winners == [] && page.category == Grand
    requires !page.isSpinning && page.startEnabled
    modifies page
    ensures page.Valid() && page.participants == [ann] && page.winners == [] && page.category == Grand
    ensures page.spinning == Some(Pending(ann, Grand)) && page.scheduled == old(page.scheduled)
  {
    assert CountCategory([], Grand) == 0;
    var started := page.StartDraw();
    assert started == Armed;
    EligibleWithoutWinners(page.participants);
    assert SelectIndex(0, 1, 1) == 0;
    var spun := page.ClickSpin(0, 1);
  }

  /** The first reveal timer fires, then the second animation ends and schedules its reveal. */
  method FirstReveal(page: LuckyDraw, ann: Participant, id1: int, at1: string)
    requires page.Valid() && page.winners == []
    requires page.scheduled == [Pending(ann, Grand)] && page.spinning == Some(Pending(ann, Grand))
    modifies page
    ensures page.Valid() && page.winners == [WinnerRecordOf(ann, Grand, id1, at1)]
    ensures page.scheduled == [Pending(ann, Grand)]
  {
    page.RevealTimeout(id1, at1);
    assert page.scheduled == [];
    assert page.winners == [] + [WinnerRecordOf(ann, Grand, id1, at1)];
    page.AnimationEnd();
  }

  /** The second reveal timer fires. */
  method SecondReveal(page: LuckyDraw, ann: Participant, first: WinnerRecord, id2: int, at2: string)
    requires page.Valid() && page.winners == [first] && page.scheduled == [Pending(ann, Grand)]
    modifies page
    ensures page.winners == [first] + [WinnerRecordOf(ann, Grand, id2, at2)]
  {
    page.RevealTimeout(id2, at2);
  }

  /** Both pending reveals commit the same ticket in the grand category. */
  method RevealBoth(page: LuckyDraw, ann: Participant, id1: int, at1: string, id2: int, at2: string)
    requires page.Valid() && page.winners == [] && page.category == Grand
    requires page.scheduled == [Pending(ann, Grand)] && page.spinning == Some(Pending(ann, Grand))
    modifies page
    ensures |page.winners| == 2 && page.winners[0].ticketNumber == page.winners[1].ticketNumber
    ensures CountCategory(page.winners, Grand) == 2
  {
    var first, second := WinnerRecordOf(ann, Grand, id1, at1), WinnerRecordOf(ann, Grand, id2, at2);
    FirstReveal(page, ann, id1, at1);
    SecondReveal(page, ann, first, id2, at2);
    assert [first] == [] + [first];
    CountAfterAppend([], first, Grand);
    CountAfterAppend([first], second, Grand);
  }

  /**
   * Two clicks inside the 500 ms between the end of an animation and its
   * `showWinner` draw from a pool that still holds the first winner: with
   * one participant, the same ticket wins the grand prize twice.
   */
  method RevealRace() returns (page: LuckyDraw)
    ensures |page.winners| == 2 && page.winners[0].ticketNumber == page.winners[1].ticketNumber
    ensures CountCategory(page.winners, Grand) == 2 > MaxWinners(Grand)
    ensures !LedgerValid(page.winners)
  {
    var ann;
    page, ann := RaceSetup(2026, 0);
    StartAndSpin(page, ann);
    // The animation ends; showWinner is only scheduled, and Start is enabled again.
    page.AnimationEnd();
    // Start and Spin before the timer fires: the pool still holds Ann.
    StartAndSpin(page, ann);
    // The first reveal commits, the second animation ends, the second reveal commits.
    RevealBoth(page, ann, 2, "t1", 3, "t2");
  }

  /**
   * With the commit made at animation end, a second Start for the grand
   * prize is refused as soon as its one winner is recorded.
   */
  method GrandCapEnforced() returns (page: LuckyDraw, outcome: StartOutcome)
    ensures |page.winners| == 1 && page.winners[0].category == Grand
    ensures outcome == CategoryFull
  {
    var ann;
    page, ann := RaceSetup(2026, 0);
    StartAndSpin(page, ann);
    page.FinishDraw(2, "t1");
    var first := WinnerRecordOf(ann, Grand, 2, "t1");
    assert page.winners == [] + [first];
    CountAfterAppend([], first, Grand);
    outcome := page.StartDraw();
  }
}
