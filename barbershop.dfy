/**
 * The shop's records and its static business calendar.
 *
 * A calendar day is represented by its local day number (days since
 * 1970-01-01, which was a Thursday); times of day are `"HH:MM"` strings.
 */
module Barbershop {

  datatype Option<T> = None | Some(value: T)

  /** A service on offer; the evaluator only reads its duration. */
  datatype Service = Service(id: string, name: string, durationMin: int, isPopular: bool, isActive: bool)

  datatype Barber = Barber(id: string, name: string, role: string, isActive: bool)

  /** The record the booking wizard fills in field by field. */
  datatype BookingData = BookingData(
    service: Option<Service>,
    barber: Option<Barber>,
    date: Option<int>,
    time: Option<string>,
    clientName: string,
    clientPhone: string,
    notes: string)

  /** The lifecycle states an appointment row can be in. */
  datatype AppointmentStatus = Pendente | Confirmado | Concluido | Cancelado

  /** The text the store keeps for each status. */
  function StatusText(s: AppointmentStatus): string {
    match s
    case Pendente => "pendente"
    case Confirmado => "confirmado"
    case Concluido => "concluido"
    case Cancelado => "cancelado"
  }

  /** Reads a stored status; any other text is not a status. */
  function ParseStatus(text: string): (r: Option<AppointmentStatus>)
    ensures r.Some? <==> text in {"pendente", "confirmado", "concluido", "cancelado"}
  {
    if text == "pendente" then Some(Pendente)
    else if text == "confirmado" then Some(Confirmado)
    else if text == "concluido" then Some(Concluido)
    else if text == "cancelado" then Some(Cancelado)
    else None
  }

  /** Every status is stored under its own text, and reads back as itself. */
  lemma StatusTextRoundTrip(s: AppointmentStatus, t: AppointmentStatus)
    ensures ParseStatus(StatusText(s)) == Some(s)
    ensures StatusText(s) == StatusText(t) ==> s == t
  {
  }

  /** An interval of the day, as two `"HH:MM"` strings. */
  datatype Hours = Hours(start: string, end: string)

  /**
   * The business calendar: per weekday (0 = Sunday .. 6 = Saturday) the
   * opening hours (`None` = closed) and the breaks, and the step in minutes
   * between candidate slots.
   */
  datatype BusinessConfig = BusinessConfig(
    name: string,
    city: string,
    address: string,
    whatsapp: string,
    instagram: string,
    openingHours: map<int, Option<Hours>>,
    breaks: map<int, seq<Hours>>,
    slotMinutes: int)

  /** The shop's calendar as configured. */
  const ShopConfig: BusinessConfig := BusinessConfig(
    "Ricardo Barbershop",
    "Florianópolis - SC",
    "Rua Irmã Bonavita, 123",
    "554896689199",
    "diivulgaja",
    map[
      0 := None,
      1 := Some(Hours("09:00", "20:00")),
      2 := Some(Hours("09:00", "20:00")),
      3 := Some(Hours("09:00", "20:00")),
      4 := Some(Hours("09:00", "20:00")),
      5 := Some(Hours("09:00", "20:00")),
      6 := Some(Hours("09:00", "18:00"))],
    map[
      0 := [],
      1 := [Hours("12:00", "13:00")],
      2 := [Hours("12:00", "13:00")],
      3 := [Hours("12:00", "13:00")],
      4 := [Hours("12:00", "13:00")],
      5 := [Hours("12:00", "13:00")],
      6 := [Hours("12:00", "13:00")]],
    30)

  /** `openingHours[day]`: a missing entry reads as closed, like a null one. */
  function OpeningHoursOn(cfg: BusinessConfig, day: int): Option<Hours> {
    if day in cfg.openingHours then cfg.openingHours[day] else None
  }

  /** `breaks[day] || []`. */
  function BreaksOn(cfg: BusinessConfig, day: int): seq<Hours> {
    if day in cfg.breaks then cfg.breaks[day] else []
  }
}
