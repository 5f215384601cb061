/** The `settings` slice of the store: whether the grid and the axes are drawn. */
module Settings {

  datatype Settings = Settings(showGrids: bool, showAxes: bool)

  /** `initialState`: both guides shown. */
  const Initial := Settings(true, true)

  function ToggleGrids(s: Settings): (r: Settings)
    ensures r.showGrids != s.showGrids && r.showAxes == s.showAxes
  {
    s.(showGrids := !s.showGrids)
  }

  function ToggleAxes(s: Settings): (r: Settings)
    ensures r.showAxes != s.showAxes && r.showGrids == s.showGrids
  {
    s.(showAxes := !s.showAxes)
  }

  class SettingsSlice {
    var showGrids: bool
    var showAxes: bool

    function State(): Settings
      reads this
    {
      Settings(showGrids, showAxes)
    }

    constructor ()
      ensures State() == Initial
    {
      showGrids, showAxes := true, true;
    }

    method ToggleShowGrids()
      modifies this
      ensures State() == ToggleGrids(old(State()))
    {
      showGrids := !showGrids;
    }

    method ToggleShowAxes()
      modifies this
      ensures State() == ToggleAxes(old(State()))
    {
      showAxes := !showAxes;
    }
  }

  /** Each toggle undoes itself. */
  lemma TogglesAreInvolutions(s: Settings)
    ensures ToggleGrids(ToggleGrids(s)) == s && ToggleAxes(ToggleAxes(s)) == s
  {
  }

  /** The order of the two toggles does not matter. */
  lemma TogglesCommute(s: Settings)
    ensures ToggleGrids(ToggleAxes(s)) == ToggleAxes(ToggleGrids(s))
  {
  }

  /** After any sequence of toggles, a guide is shown iff its toggle ran an even number of times. */
  function Run(s: Settings, toggles: seq<bool>): Settings {
    if toggles == [] then s
    else
      var p := Run(s, toggles[..|toggles| - 1]);
      if toggles[|toggles| - 1] then ToggleGrids(p) else ToggleAxes(p)
  }

  function Count(toggles: seq<bool>, b: bool): nat {
    if toggles == [] then 0
    else Count(toggles[..|toggles| - 1], b) + (if toggles[|toggles| - 1] == b then 1 else 0)
  }

  lemma {:induction false} RunParity(toggles: seq<bool>)
    ensures Run(Initial, toggles).showGrids <==> Count(toggles, true) % 2 == 0
    ensures Run(Initial, toggles).showAxes <==> Count(toggles, false) % 2 == 0
  {
    if toggles != [] {
      RunParity(toggles[..|toggles| - 1]);
    }
  }
}
