/**
  The navigation menu's search dialog: its visibility, the query, and the
  projects the query selects. The 300 ms debounce of the filter is taken as
  immediate: every change of the query recomputes the list.
 */
module NavMenu {
  import opened Text

  datatype Project = Project(title: string, description: string, path: string)

  datatype NavState = NavState(isSearchVisible: bool, searchQuery: string, filteredProjects: seq<Project>)

  /** A project is found by an already lower-cased query through its title or description. */
  predicate Matches(p: Project, query: string)
    ensures Matches(p, query) <==> Contains(Lower(p.title), query) || Contains(Lower(p.description), query)
  {
    Includes(Lower(p.title), query) || Includes(Lower(p.description), query)
  }

  /** `projects().filter(...)`. */
  function FilterMatching(projects: seq<Project>, query: string): (r: seq<Project>)
    ensures forall p :: p in r <==> p in projects && Matches(p, query)
    ensures |r| <= |projects|
  {
    if |projects| == 0 then []
    else
      var rest := FilterMatching(projects[1..], query);
      assert forall p :: p in projects <==> p == projects[0] || p in projects[1..];
      if Matches(projects[0], query) then [projects[0]] + rest else rest
  }

  /** Filtering distributes over concatenation: the found projects keep their order. */
  lemma {:induction false} FilterMatchingAppend(a: seq<Project>, b: seq<Project>, query: string)
    ensures FilterMatching(a + b, query) == FilterMatching(a, query) + FilterMatching(b, query)
  {
    if |a| == 0 {
      assert a + b == b;
    } else {
      assert (a + b)[0] == a[0] && (a + b)[1..] == a[1..] + b;
      FilterMatchingAppend(a[1..], b, query);
    }
  }

  /** The effect on `searchQuery`: nothing for an empty query, else the matching projects. */
  function FilterProjects(projects: seq<Project>, searchQuery: string): (r: seq<Project>)
    ensures searchQuery == "" ==> r == []
    ensures searchQuery != "" ==> forall p :: p in r <==> p in projects && Matches(p, Lower(searchQuery))
  {
    var query := Lower(searchQuery);
    if |query| > 0 then FilterMatching(projects, query) else []
  }

  /** The filter ignores the case of ASCII letters in the query. */
  lemma FilterIgnoresQueryCase(projects: seq<Project>, searchQuery: string)
    ensures FilterProjects(projects, Lower(searchQuery)) == FilterProjects(projects, searchQuery)
  {
    LowerIdempotent(searchQuery);
  }

  /** An empty query matches every project, but the menu lists none. */
  lemma EmptyQueryListsNothing(projects: seq<Project>)
    ensures forall p :: Matches(p, "")
    ensures FilterProjects(projects, "") == []
  {
    forall p: Project
      ensures Matches(p, "")
    {
      assert OccursAt(Lower(p.title), "", 0);
    }
  }

  /** `onSearchInput`, with the filter effect applied. */
  function OnSearchInput(s: NavState, value: string, projects: seq<Project>): (r: NavState)
    ensures r.isSearchVisible == s.isSearchVisible && r.searchQuery == value
    ensures r.filteredProjects == FilterProjects(projects, value)
  {
    NavState(s.isSearchVisible, value, FilterProjects(projects, value))
  }

  /** `toggleSearchDialog`: flip, and clear the query when the dialog closes. */
  function ToggleSearchDialog(s: NavState): (r: NavState)
    ensures r.isSearchVisible == !s.isSearchVisible
    ensures !r.isSearchVisible ==> r.searchQuery == "" && r.filteredProjects == []
    ensures r.isSearchVisible ==> r.searchQuery == s.searchQuery && r.filteredProjects == s.filteredProjects
  {
    if s.isSearchVisible then NavState(false, "", []) else s.(isSearchVisible := true)
  }

  /** `onSearchDialogClosed`. */
  function OnSearchDialogClosed(s: NavState): (r: NavState)
    ensures !r.isSearchVisible && r.searchQuery == "" && r.filteredProjects == []
  {
    NavState(false, "", [])
  }

  /** Opening and closing again is the same as closing from the start. */
  lemma ToggleTwice(s: NavState)
    ensures ToggleSearchDialog(ToggleSearchDialog(s)).isSearchVisible == s.isSearchVisible
    ensures !s.isSearchVisible ==> ToggleSearchDialog(ToggleSearchDialog(s)) == OnSearchDialogClosed(s)
  {
  }

  /** `handleKeyboardEvent`. */
  function HandleKeyboardEvent(s: NavState, ctrlKey: bool, key: string): (r: NavState)
    ensures ctrlKey && key == "k" ==> r == ToggleSearchDialog(s)
    ensures !(ctrlKey && key == "k") ==> r == s
  {
    if ctrlKey && key == "k" then ToggleSearchDialog(s) else s
  }

  /** Ctrl+K always changes the dialog's visibility and nothing else does. */
  lemma OnlyCtrlKTogglesDialog(s: NavState, ctrlKey: bool, key: string)
    ensures HandleKeyboardEvent(s, ctrlKey, key).isSearchVisible != s.isSearchVisible <==> ctrlKey && key == "k"
  {
  }
}
