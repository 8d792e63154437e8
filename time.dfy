/** The `time` type of the scenario runtime: its unit constants in
    milliseconds and the layout `time.format` uses. */
module Time {
  import opened Wrappers
  import opened Convert

  const Millisecond: int := 1
  const Second: int := 1000
  const Minute: int := 1000 * 60
  const Hour: int := 1000 * 60 * 60
  const Day: int := 1000 * 60 * 60 * 24
  const Week: int := 1000 * 60 * 60 * 24 * 7
  /** As written: 365 weeks, not 365 days. */
  const Year: int := 1000 * 60 * 60 * 24 * 7 * 365

  /** The fields registered on the `time` table, by name. */
  function Units(): (m: map<string, int>)
    ensures m.Keys == {"millisecond", "second", "minute", "hour", "day", "week", "year"}
    ensures forall k :: k in m ==> m[k] > 0
  {
    map["millisecond" := Millisecond, "second" := Second, "minute" := Minute, "hour" := Hour,
        "day" := Day, "week" := Week, "year" := Year]
  }

  /** Each unit is a whole number of the one before it. */
  lemma UnitRatios()
    ensures Units()["millisecond"] == 1
    ensures Units()["second"] == 1000 * Units()["millisecond"]
    ensures Units()["minute"] == 60 * Units()["second"]
    ensures Units()["hour"] == 60 * Units()["minute"]
    ensures Units()["day"] == 24 * Units()["hour"]
    ensures Units()["week"] == 7 * Units()["day"]
    ensures Units()["year"] == 365 * Units()["week"]
  {
  }

  /** The units grow strictly, and a year as written is 7 times 365 days. */
  lemma UnitsIncrease()
    ensures Millisecond < Second < Minute < Hour < Day < Week < Year
    ensures Year == 7 * 365 * Day
    ensures Year != 365 * Day
  {
  }

  const DefaultFormat: string := "%Y-%m-%dT%H:%M:%S%z"

  /** The layout passed to os.date by `time.format`: the second argument when
      it is a string, the default when it is absent or nil, and a type error
      (None) for anything else. */
  function FormatLayout(arg: LValue): (r: Option<string>)
    ensures arg.LNil? ==> r == Some(DefaultFormat)
    ensures arg.LString? ==> r == Some(arg.s)
    ensures r.None? <==> !(arg.LNil? || arg.LString?)
  {
    match arg
    case LNil => Some(DefaultFormat)
    case LString(s) => Some(s)
    case _ => None
  }

  /** Leaving the layout out formats exactly as passing the default layout
      does, and every accepted argument acts as the string layout it stands for. */
  lemma OmittedLayoutIsDefault(arg: LValue)
    ensures FormatLayout(LNil) == FormatLayout(LString(DefaultFormat))
    ensures FormatLayout(arg).Some? ==> FormatLayout(arg) == FormatLayout(LString(FormatLayout(arg).value))
  {
  }
}
