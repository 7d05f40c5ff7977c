/** The entities of the user store: users and their audit-log entries. */
module Models {

  /** A `System.DateTime`: calendar date plus the time of day, which the core
      never inspects and so is kept as an uninterpreted tick count. */
  datatype DateTime = DateTime(year: int, month: int, day: int, timeOfDay: int)

  /** `DateTime.MinValue`: midnight on 1 January of year 1. */
  const MinValue := DateTime(1, 1, 1, 0)

  predicate IsLeapYear(year: int)
  {
    year % 4 == 0 && (year % 100 != 0 || year % 400 == 0)
  }

  /** `DateTime.AddYears`: the same day and time `n` years later (earlier for a
      negative `n`); 29 February becomes 28 February in a common year. */
  function AddYears(d: DateTime, n: int): DateTime
  {
    var year := d.year + n;
    if d.month == 2 && d.day == 29 && !IsLeapYear(year) then d.(year := year, day := 28)
    else d.(year := year)
  }

  /** A user record. `id` is the store key: 0 means "not yet assigned". */
  datatype User = User(
    id: int,
    forename: string,
    surname: string,
    email: string,
    isActive: bool,
    dateOfBirth: DateTime)

  /** An audit-log entry about the user with id `userId`. */
  datatype Log = Log(
    id: int,
    userId: int,
    action: string,
    timestamp: DateTime,
    details: string)
}
