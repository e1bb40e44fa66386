/**
 * The status record of one unit, derived from the reply to
 * `systemctl show <unit> --property=LoadState,ActiveState,SubState,UnitFileState,Description`
 * (`Plugin._get_unit_status`, apart from issuing the command).
 */
module Status {
  import opened Results
  import opened Text
  import opened KvParse

  /** What one `systemctl` invocation gives back: exit status, stripped stdout, stripped stderr. */
  datatype Reply = Reply(rc: int, out: string, err: string)

  /** The record the backend returns for a unit (`exists` is a Dafny keyword, hence `unitExists`). */
  datatype ServiceStatus = ServiceStatus(
    unit: string,
    unitExists: bool,
    active: bool,
    activeState: string,
    subState: string,
    unitFileState: string,
    enabled: bool,
    canToggleEnable: bool,
    description: Option<string>,
    loadState: string)

  const Unknown := "unknown"
  const NotFound := "not-found"

  /** A failed `show` with no output whose stderr says the unit is missing. */
  predicate NotFoundShortCircuit(rep: Reply)
  {
    && rep.rc != 0
    && rep.out == ""
    && (Contains(rep.err, "not be found") || Contains(rep.err, NotFound))
  }

  /** The fixed record returned for a unit systemd reports as missing. */
  function NotFoundStatus(unit: string): (s: ServiceStatus)
    ensures s.unit == unit && Consistent(s)
  {
    ServiceStatus(unit, false, false, "inactive", "dead", NotFound, false, false, None, NotFound)
  }

  function Lookup(data: map<string, string>, key: string): Option<string>
  {
    if key in data then Some(data[key]) else None
  }

  /** The record built from the parsed properties, with "unknown" for every missing state. */
  function DeriveStatus(unit: string, data: map<string, string>): (s: ServiceStatus)
    ensures s.unit == unit && Consistent(s)
  {
    var loadState := GetOr(Lookup(data, "LoadState"), Unknown);
    var activeState := GetOr(Lookup(data, "ActiveState"), Unknown);
    var subState := GetOr(Lookup(data, "SubState"), Unknown);
    var unitFileState := GetOr(Lookup(data, "UnitFileState"), Unknown);
    ServiceStatus(
      unit,
      loadState != NotFound,
      activeState == "active",
      activeState,
      subState,
      unitFileState,
      unitFileState == "enabled" || unitFileState == "enabled-runtime",
      unitFileState != "static",
      Lookup(data, "Description"),
      loadState)
  }

  /**
   * The status of `unit` given the reply to its `show` command.  Every record
   * the backend produces names the unit asked about and is consistent.
   */
  function StatusFromShow(unit: string, rep: Reply): (s: ServiceStatus)
    ensures s.unit == unit && Consistent(s)
  {
    if NotFoundShortCircuit(rep) then NotFoundStatus(unit)
    else DeriveStatus(unit, KvOf(SplitLines(rep.out)))
  }

  /** The relations between the fields of a record that hold whichever way it was built. */
  predicate Consistent(s: ServiceStatus)
  {
    && (s.unitExists <==> s.loadState != NotFound)
    && (s.active <==> s.activeState == "active")
    && (s.enabled <==> s.unitFileState == "enabled" || s.unitFileState == "enabled-runtime")
    && (s.canToggleEnable ==> s.unitFileState != "static")
    && (s.enabled ==> s.canToggleEnable)
  }

  /**
   * When the short-circuit does not fire, every field follows from the last
   * line of stdout that assigns the matching property, "unknown" standing in
   * for a property no line assigns.
   */
  lemma ShowStatusFields(unit: string, rep: Reply)
    requires !NotFoundShortCircuit(rep)
    ensures var s := StatusFromShow(unit, rep);
      var lines := SplitLines(rep.out);
      && s.unit == unit
      && (s.unitExists <==> LastValue(lines, "LoadState") != Some(NotFound))
      && (s.active <==> LastValue(lines, "ActiveState") == Some("active"))
      && (s.enabled <==> LastValue(lines, "UnitFileState") in {Some("enabled"), Some("enabled-runtime")})
      && (s.canToggleEnable <==> LastValue(lines, "UnitFileState") != Some("static"))
      && s.loadState == GetOr(LastValue(lines, "LoadState"), Unknown)
      && s.activeState == GetOr(LastValue(lines, "ActiveState"), Unknown)
      && s.subState == GetOr(LastValue(lines, "SubState"), Unknown)
      && s.unitFileState == GetOr(LastValue(lines, "UnitFileState"), Unknown)
      && s.description == LastValue(lines, "Description")
  {
    var lines := SplitLines(rep.out);
    KvOfIsLastValue(lines, "LoadState");
    KvOfIsLastValue(lines, "ActiveState");
    KvOfIsLastValue(lines, "SubState");
    KvOfIsLastValue(lines, "UnitFileState");
    KvOfIsLastValue(lines, "Description");
  }

  /**
   * A failed `show` with empty stdout: a "missing unit" message in stderr gives
   * the fixed record (nothing exists, runs, is enabled or may be toggled); any
   * other message gives a unit presumed to exist with every state "unknown".
   */
  lemma FailedShowWithoutOutput(unit: string, rep: Reply)
    requires rep.rc != 0 && rep.out == ""
    ensures var s := StatusFromShow(unit, rep);
      if Contains(rep.err, "not be found") || Contains(rep.err, NotFound) then
        && !s.unitExists && !s.active && !s.enabled && !s.canToggleEnable
        && s.activeState == "inactive" && s.subState == "dead"
        && s.unitFileState == NotFound && s.loadState == NotFound && s.description == None
      else
        && s.unitExists && !s.active && !s.enabled && s.canToggleEnable
        && s.activeState == Unknown && s.subState == Unknown
        && s.unitFileState == Unknown && s.loadState == Unknown && s.description == None
  {
  }
}
