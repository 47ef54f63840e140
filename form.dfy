/** The dialog helpers of src/SchedulerComponent.js: the rounded default
    start of the creation dialog, and the conversion between a stored mode
    object and the dialog's selected mode plus parameter values. */
module Form {
  import opened Common

  // ---------------------------------------------------------------------
  // handleClickOpen

  const QuarterMs: int := 15 * MinuteMs

  /** The creation dialog's default start: the current minute of the hour
      rounded up to a multiple of 15 (60 rolls into the next hour), with the
      seconds and milliseconds dropped. The local clock is taken to be the
      epoch clock. */
  function RoundedStart(now: int): (r: int)
    ensures r % QuarterMs == 0
    ensures now - MinuteMs < r <= now + 14 * MinuteMs
  {
    var intoHour := now % HourMs;
    var minutes := intoHour / MinuteMs;
    var quarters := (minutes + 14) / 15;
    var r := now - intoHour + quarters * QuarterMs;
    assert r == (4 * (now / HourMs) + quarters) * QuarterMs by {
      assert now == (now / HourMs) * HourMs + intoHour;
    }
    QuarterMultiple(4 * (now / HourMs) + quarters);
    assert minutes * MinuteMs <= intoHour < minutes * MinuteMs + MinuteMs;
    assert minutes <= quarters * 15 <= minutes + 14;
    r
  }

  lemma QuarterMultiple(q: int)
    ensures (q * QuarterMs) % QuarterMs == 0
  {
  }

  /** The creation dialog's initial fields. */
  datatype Draft = Draft(scheduleName: string, startDate: int, endDate: int, duration: int,
                         frequency: Frequency, mode: Mode)

  /** The dialog opens with no name, a one-hour one-off starting at the
      rounded time, and the default mode. */
  function OpenDraft(now: int): (d: Draft)
    ensures d.endDate == d.startDate + HourMs && d.duration == HourMs
    ensures d.frequency == Once && d.scheduleName == "" && d.mode == DefaultMode
    ensures d.startDate % QuarterMs == 0 && now - MinuteMs < d.startDate <= now + 14 * MinuteMs
  {
    var start := RoundedStart(now);
    Draft("", start, start + HourMs, HourMs, Once, DefaultMode)
  }

  // ---------------------------------------------------------------------
  // extractModeParams and formatModeObject

  /** Every entry of a mode object except its `type`. */
  function ModeParams(mode: Mode): (params: map<string, string>)
    ensures forall k :: k in params <==> k in mode && k != "type"
    ensures forall k :: k in params ==> params[k] == mode[k]
  {
    map k | k in mode && k != "type" :: mode[k]
  }

  /** extractModeParams: copies every key but `type`, one key at a time. */
  method ExtractModeParams(mode: Mode) returns (params: map<string, string>)
    ensures params == ModeParams(mode)
  {
    params := map[];
    var keys := mode.Keys;
    while keys != {}
      invariant keys <= mode.Keys
      invariant forall k :: k in params <==> k in mode && k !in keys && k != "type"
      invariant forall k :: k in params ==> params[k] == mode[k]
      decreases |keys|
    {
      var key :| key in keys;
      if key != "type" {
        params := params[key := mode[key]];
      }
      keys := keys - {key};
    }
  }

  /** A mode the device offers, with the names of its parameters (`None`
      when the entry has no `params` list). */
  datatype ModeSpec = ModeSpec(name: string, params: Option<seq<string>>)

  /** `modes.find(mode => mode.name === selectedMode)`. */
  function FindMode(modes: seq<ModeSpec>, name: string): (r: Option<ModeSpec>)
    ensures r.Some? ==> r.value in modes && r.value.name == name
    ensures r.None? <==> forall k :: 0 <= k < |modes| ==> modes[k].name != name
  {
    if modes == [] then None
    else if modes[0].name == name then Some(modes[0])
    else FindMode(modes[1..], name)
  }

  /** The `forEach` over the selected mode's parameters: each one the dialog
      holds a value for is copied in. */
  function CopyParams(obj: Mode, names: seq<string>, values: map<string, string>): (r: Mode)
    ensures forall k :: k in r <==> k in obj || (k in names && k in values)
    ensures forall k :: k in r ==> r[k] == if k in names && k in values then values[k] else obj[k]
    decreases |names|
  {
    if names == [] then obj
    else
      var n := |names| - 1;
      var earlier := CopyParams(obj, names[..n], values);
      assert forall k :: k in names <==> k in names[..n] || k == names[n] by {
        assert names == names[..n] + [names[n]];
      }
      if names[n] in values then earlier[names[n] := values[names[n]]] else earlier
  }

  function ParamNames(spec: Option<ModeSpec>): seq<string> {
    match spec
    case Some(m) => m.params.GetOr([])
    case None => []
  }

  /** formatModeObject: `{type: selectedMode}` plus every parameter of the
      selected mode that has a value. A parameter called `type` would
      overwrite the type. */
  function FormatModeObject(selectedMode: string, modeParams: map<string, string>, modes: seq<ModeSpec>): (r: Mode)
    ensures var names := ParamNames(FindMode(modes, selectedMode));
      && (forall k :: k in r <==> k == "type" || (k in names && k in modeParams))
      && (forall k :: k in r && k in names && k in modeParams ==> r[k] == modeParams[k])
      && ("type" !in names || "type" !in modeParams ==> r["type"] == selectedMode)
  {
    CopyParams(map["type" := selectedMode], ParamNames(FindMode(modes, selectedMode)), modeParams)
  }

  /** Opening the edit dialog on a mode object and saving it again gives the
      same object back, provided the device's entry for its type lists every
      parameter it has and none called `type`. */
  lemma EditDialogModeRoundTrip(mode: Mode, modes: seq<ModeSpec>)
    requires "type" in mode
    requires var names := ParamNames(FindMode(modes, mode["type"]));
      "type" !in names && forall k :: k in mode && k != "type" ==> k in names
    ensures FormatModeObject(mode["type"], ModeParams(mode), modes) == mode
  {
    var r := FormatModeObject(mode["type"], ModeParams(mode), modes);
    assert r.Keys == mode.Keys;
  }

  /** A parameter the selected mode does not list is dropped, whatever the
      dialog holds for it. */
  lemma UnlistedParamDropped(selectedMode: string, modeParams: map<string, string>, modes: seq<ModeSpec>, key: string)
    requires key != "type" && key !in ParamNames(FindMode(modes, selectedMode))
    ensures key !in FormatModeObject(selectedMode, modeParams, modes)
  {
  }
}
