/**
 The rows shared by the API and the worker. A table is a sequence and a row's id is its position,
 so an insert yields a fresh id and no row is ever removed.
 */
module Tables {
  import opened Outcomes

  datatype Status = Pending | Confirmed | CancelledByCustomer | CancelledByBusiness | Completed | NoShow {
    predicate Active() {
      Pending? || Confirmed?
    }
  }

  datatype Appointment = Appointment(
    serviceId: int,
    staffMemberId: int,
    customerId: nat,
    startsAt: int,
    endsAt: int,
    status: Status,
    seriesId: Option<nat>
  )

  datatype Customer = Customer(total: int, completed: int, noShow: int, cancelled: int)

  datatype EntryStatus = Waiting | Offered | Booked | Withdrawn

  /** Dates are day numbers, times of day are minutes. */
  datatype Entry = Entry(
    customerId: nat,
    serviceId: int,
    dateStart: int,
    dateEnd: int,
    earliest: Option<int>,
    latest: Option<int>,
    priority: int,
    status: EntryStatus
  )

  datatype OfferStatus = Open | Accepted | Rejected | Expired

  datatype Offer = Offer(entryId: nat, appointmentId: nat, expiresAt: int, status: OfferStatus)

  datatype Series = Series(customerId: nat, cancelled: bool)

  /** Derived stands for the events the worker emits that concern reminders, risk and metrics. */
  datatype EventKind =
    | AppointmentBooked | AppointmentConfirmed | AppointmentCompleted | AppointmentMarkedAsNoShow
    | AppointmentCancelled | AppointmentRescheduled | SlotReleased | SlotReassigned
    | WaitlistEntryCreated | WaitlistCandidateMatched | WaitlistOfferCreated
    | WaitlistOfferAccepted | WaitlistOfferRejected | WaitlistOfferExpired
    | RecurringSeriesCreated | RecurringSeriesConflict | Derived
  {
    /** The kinds whose handler looks for a waitlist candidate. */
    predicate OpensOpportunity() {
      AppointmentCancelled? || WaitlistOfferExpired? || WaitlistOfferRejected?
    }
  }

  /** An outbox row with the part of its payload that the worker's waitlist handler reads. */
  datatype Event = Event(kind: EventKind, subject: nat, serviceId: int, startsAt: int, occurredAt: int)

  datatype Db = Db(
    appointments: seq<Appointment>,
    customers: seq<Customer>,
    entries: seq<Entry>,
    offers: seq<Offer>,
    series: seq<Series>,
    outbox: seq<Event>,
    processed: set<nat>
  ) {
    /** Foreign keys point at rows. */
    ghost predicate Linked() {
      && (forall i :: 0 <= i < |appointments| ==> appointments[i].customerId < |customers|)
      && (forall i :: 0 <= i < |entries| ==> entries[i].customerId < |customers|)
      && (forall i :: 0 <= i < |offers| ==> offers[i].entryId < |entries| && offers[i].appointmentId < |appointments|)
      && (forall i :: 0 <= i < |series| ==> series[i].customerId < |customers|)
      && (forall i :: 0 <= i < |outbox| && outbox[i].kind.OpensOpportunity() ==> outbox[i].subject < |appointments|)
    }
  }

  const EMPTY_DB: Db := Db([], [], [], [], [], [], {})

  /** The database; every transaction below reads it once and writes it at commit. */
  class Database {
    var db: Db

    constructor ()
      ensures db == EMPTY_DB
    {
      db := EMPTY_DB;
    }
  }
}
