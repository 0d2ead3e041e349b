/**
 * The pure part of the draw: who is eligible, whether a category still has
 * room, which pool index a random number selects, and what a committed
 * draw writes into the two stores. The stateful handlers that use these
 * are in module Site.
 */
module Draw {
  import opened Collections
  import opened Prizes
  import opened Records

  /** The winner-record test `w.ticketNumber === t`. */
  function RecordsTicket(t: string): WinnerRecord -> bool {
    (w: WinnerRecord) => w.ticketNumber == t
  }

  /** The participant test `p.ticketNumber === t`. */
  function HoldsTicket(t: string): Participant -> bool {
    (p: Participant) => p.ticketNumber == t
  }

  /** `winners.find(w => w.ticketNumber === t)` succeeds. */
  function HasWon(ws: seq<WinnerRecord>, t: string): (b: bool)
    ensures b <==> exists i :: 0 <= i < |ws| && ws[i].ticketNumber == t
  {
    Find(RecordsTicket(t), ws).Some?
  }

  /** Holds of the participants who have not won yet. */
  function NotWon(ws: seq<WinnerRecord>): Participant -> bool {
    (p: Participant) => !HasWon(ws, p.ticketNumber)
  }

  /** `getEligibleParticipants`: the participants whose ticket is on no winner record. */
  function Eligible(ps: seq<Participant>, ws: seq<WinnerRecord>): (pool: seq<Participant>)
    ensures |pool| <= |ps|
    ensures forall i :: 0 <= i < |pool| ==> pool[i] in ps && !HasWon(ws, pool[i].ticketNumber)
    ensures forall i :: 0 <= i < |ps| && !HasWon(ws, ps[i].ticketNumber) ==> ps[i] in pool
  {
    Filter(NotWon(ws), ps)
  }

  /** The pool keeps store order: the pool of two stores laid end to end is their two pools laid end to end. */
  lemma EligibleKeepsOrder(a: seq<Participant>, b: seq<Participant>, ws: seq<WinnerRecord>)
    ensures Eligible(a + b, ws) == Eligible(a, ws) + Eligible(b, ws)
  {
    FilterAppend(NotWon(ws), a, b);
  }

  /** Before any draw the pool is the whole store. */
  lemma EligibleWithoutWinners(ps: seq<Participant>)
    ensures Eligible(ps, []) == ps
  {
    FilterKeepsAll(NotWon([]), ps);
  }

  function InCategory(c: Category): WinnerRecord -> bool {
    (w: WinnerRecord) => w.category == c
  }

  /** `winners.filter(w => w.category === c).length`. */
  function CountCategory(ws: seq<WinnerRecord>, c: Category): (n: nat)
    ensures n <= |ws|
    ensures n == 0 <==> forall i :: 0 <= i < |ws| ==> ws[i].category != c
  {
    var r := Filter(InCategory(c), ws);
    assert r != [] ==> r[0] in ws && r[0].category == c;
    assert (exists i :: 0 <= i < |ws| && ws[i].category == c) ==> r != [] by {
      if exists i :: 0 <= i < |ws| && ws[i].category == c {
        var i :| 0 <= i < |ws| && ws[i].category == c;
        assert InCategory(c)(ws[i]);
        assert ws[i] in r;
      }
    }
    |r|
  }

  /** `canDrawPrize`: fewer winners in the category than its cap. */
  function CanDrawPrize(ws: seq<WinnerRecord>, c: Category): (b: bool)
    ensures (forall i :: 0 <= i < |ws| ==> ws[i].category != c) ==> b
    ensures !b ==> CountCategory(ws, c) >= 1
  {
    CountCategory(ws, c) < MaxWinners(c)
  }

  /** Appending one record raises its own category's count by one and no other. */
  lemma {:induction false} CountAfterAppend(ws: seq<WinnerRecord>, r: WinnerRecord, c: Category)
    ensures CountCategory(ws + [r], c) == CountCategory(ws, c) + (if r.category == c then 1 else 0)
  {
    FilterAppend(InCategory(c), ws, [r]);
    assert [r][1..] == [];
  }

  /** The gate admits exactly the draws whose record keeps the category within its cap. */
  lemma CapacityGate(ws: seq<WinnerRecord>, r: WinnerRecord)
    ensures CanDrawPrize(ws, r.category) <==> CountCategory(ws + [r], r.category) <= MaxWinners(r.category)
  {
    CountAfterAppend(ws, r, r.category);
  }

  /** Every record belongs to one of the four categories, so the counts add up to the ledger's length. */
  lemma {:induction false} CountsAddUp(ws: seq<WinnerRecord>)
    ensures |ws| == CountCategory(ws, Grand) + CountCategory(ws, Second)
                    + CountCategory(ws, Third) + CountCategory(ws, Consolation)
  {
    if ws != [] {
      var last := ws[|ws| - 1];
      var init := ws[..|ws| - 1];
      assert ws == init + [last];
      CountsAddUp(init);
      CountAfterAppend(init, last, Grand);
      CountAfterAppend(init, last, Second);
      CountAfterAppend(init, last, Third);
      CountAfterAppend(init, last, Consolation);
    }
  }

  /**
   * `Math.floor(Math.random() * n)` with the random number written as
   * `num / den`, `0 <= num < den`.
   */
  function SelectIndex(num: nat, den: nat, n: nat): (i: nat)
    requires num < den && 0 < n
    ensures i < n
  {
    assert num * n < den * n by {
      MulStrictlyMonotonic(num, den, n);
    }
    DivBelow(num * n, den, n);
    num * n / den
  }

  lemma MulStrictlyMonotonic(a: nat, b: nat, n: nat)
    requires a < b && 0 < n
    ensures a * n < b * n
  {
  }

  lemma MulMonotonic(a: int, b: int, d: nat)
    requires a <= b
    ensures a * d <= b * d
  {
  }

  lemma DivBelow(x: nat, d: nat, n: nat)
    requires 0 < d && x < d * n
    ensures x / d < n
  {
  }

  /** Integer division is determined by quotient and remainder. */
  lemma DivUnique(a: int, d: int, q: int, r: int)
    requires 0 < d && 0 <= r < d && a == q * d + r
    ensures a / d == q
  {
    var q', r' := a / d, a % d;
    assert a == q' * d + r';
    if q' > q {
      MulMonotonic(q + 1, q', d);
    } else if q' < q {
      MulMonotonic(q' + 1, q, d);
    }
  }

  /**
   * Selection is uniform: when the random numbers are the multiples of
   * `1 / (n * m)`, each index of the pool is chosen by exactly the `m`
   * numerators `i * m .. (i + 1) * m - 1`.
   */
  lemma SelectIndexUniform(num: nat, n: nat, m: nat, i: nat)
    requires 0 < n && 0 < m && num < n * m
    ensures SelectIndex(num, n * m, n) == i <==> i * m <= num < (i + 1) * m
  {
    var q, r := num / m, num % m;
    assert num * n == q * (n * m) + r * n;
    assert r * n < n * m by {
      MulStrictlyMonotonic(r, m, n);
    }
    DivUnique(num * n, n * m, q, r * n);
    if i * m <= num < (i + 1) * m {
      DivUnique(num, m, i, num - i * m);
    }
  }

  /** The record `showWinner` appends for `winner` drawn in category `c`. */
  function WinnerRecordOf(winner: Participant, c: Category, id: int, drawnAt: string): (r: WinnerRecord)
    ensures r.ticketNumber == winner.ticketNumber && r.name == winner.fullName
    ensures r.phone == winner.phone && r.email == winner.email
    ensures r.prize == PrizeOf(c).name + " (" + PrizeOf(c).value + ")" && r.category == c
  {
    WinnerRecord(id, winner.ticketNumber, winner.fullName, winner.phone, winner.email,
                 PrizeLabel(c), c, drawnAt)
  }

  /** `j` is the first position of the store holding ticket `t`. */
  predicate FirstWithTicket(ps: seq<Participant>, t: string, j: int) {
    0 <= j < |ps| && ps[j].ticketNumber == t && forall i :: 0 <= i < j ==> ps[i].ticketNumber != t
  }

  /**
   * The status update of `showWinner`: the first participant holding
   * ticket `t` becomes a winner; nobody else and no other field changes.
   */
  function MarkWinner(ps: seq<Participant>, t: string): (r: seq<Participant>)
    ensures |r| == |ps|
    ensures forall j :: 0 <= j < |ps| ==>
              r[j] == if FirstWithTicket(ps, t, j) then ps[j].(status := Winner) else ps[j]
    ensures (forall j :: 0 <= j < |ps| ==> ps[j].ticketNumber != t) ==> r == ps
  {
    var k := FindIndex(HoldsTicket(t), ps);
    if k == -1 then ps else ps[k := ps[k].(status := Winner)]
  }

  /** No two winner records share a ticket. */
  predicate TicketsDistinct(ws: seq<WinnerRecord>) {
    forall i, j :: 0 <= i < j < |ws| ==> ws[i].ticketNumber != ws[j].ticketNumber
  }

  /** Every category holds at most its cap of winners. */
  predicate WithinCaps(ws: seq<WinnerRecord>) {
    forall c: Category :: CountCategory(ws, c) <= MaxWinners(c)
  }

  /** What the winner ledger is meant to satisfy at all times. */
  predicate LedgerValid(ws: seq<WinnerRecord>) {
    WithinCaps(ws) && TicketsDistinct(ws)
  }

  /**
   * Committing a participant who is still in the pool, in a category that
   * passed the gate, keeps every cap and keeps tickets distinct.
   */
  lemma CommitKeepsLedgerValid(ws: seq<WinnerRecord>, r: WinnerRecord)
    requires LedgerValid(ws)
    requires !HasWon(ws, r.ticketNumber) && CanDrawPrize(ws, r.category)
    ensures LedgerValid(ws + [r])
  {
    forall c: Category ensures CountCategory(ws + [r], c) <= MaxWinners(c) {
      CountAfterAppend(ws, r, c);
    }
    var ws' := ws + [r];
    forall i, j | 0 <= i < j < |ws'| ensures ws'[i].ticketNumber != ws'[j].ticketNumber {
      if j == |ws| {
        assert ws'[i] == ws[i];
      }
    }
  }

  /** After a commit the winner's ticket is out of the pool, whatever the store then holds. */
  lemma CommittedTicketLeavesPool(ps: seq<Participant>, ws: seq<WinnerRecord>, r: WinnerRecord)
    ensures HasWon(ws + [r], r.ticketNumber)
    ensures forall p :: p in Eligible(ps, ws + [r]) ==> p.ticketNumber != r.ticketNumber
  {
    assert (ws + [r])[|ws|] == r;
  }

  /** A recorded win stays recorded when the ledger grows. */
  lemma HasWonAppend(ws: seq<WinnerRecord>, r: WinnerRecord, t: string)
    ensures HasWon(ws, t) ==> HasWon(ws + [r], t)
  {
    if HasWon(ws, t) {
      var i :| 0 <= i < |ws| && ws[i].ticketNumber == t;
      assert (ws + [r])[i] == ws[i];
    }
  }
}
