/**
 * The two kinds of record the lucky draw stores: registered participants
 * and the winner records created by a draw.
 */
module Records {
  import opened Prizes

  /** A participant's status; registration gives `Active`, a draw sets `Winner`. */
  datatype Status = Active | Winner

  datatype Participant = Participant(
    id: int,
    ticketNumber: string,
    fullName: string,
    phone: string,
    email: string,
    receiptNumber: string,
    registeredAt: string,
    status: Status)

  /** A winner record: a snapshot of the participant's identity plus the prize drawn. */
  datatype WinnerRecord = WinnerRecord(
    id: int,
    ticketNumber: string,
    name: string,
    phone: string,
    email: string,
    prize: string,
    category: Category,
    drawnAt: string)
}
