/** Small concrete saved searches and runs. */
module SampleSearches {
  import opened Wrappers
  import opened Text
  import opened Alerts
  import Search

  /** A saved search of an owner called like the search itself. */
  function Named(id: string, version: nat): SavedSearch {
    Asking(id, version, "")
  }

  function Asking(id: string, version: nat, criteria: string): SavedSearch {
    SavedSearch(id, id, id, Search.Query(criteria, DEFAULT_PAGE_SIZE, None), true, version)
  }

  lemma RunGrows(steps: seq<Step>, last: Step)
    ensures Run(steps + [last]) == Exec(Run(steps), last)
  {
    assert (steps + [last])[..|steps|] == steps;
  }

  lemma StartsSolid(s: string)
    requires s != "" && !IsSpace(s[0])
    ensures !IsBlank(s)
  {
    assert StripLeft(s, IsSpace) == s;
    StripRightKeeps(s);
  }

  lemma {:induction false} StripRightKeeps(s: string)
    requires s != "" && !IsSpace(s[0])
    ensures StripRight(s, IsSpace) != ""
  {
    if IsSpace(s[|s| - 1]) { StripRightKeeps(s[..|s| - 1]); }
  }
}
