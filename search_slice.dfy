/**
 * The reducers of src/store/slices/searchSlice.ts. The state is a class whose
 * fields the reducers assign; each reducer is specified by a function on a
 * snapshot of those fields.
 */
module SearchSlice {
  import opened Types

  datatype Search = Search(query: string, mode: SearchMode, isOpen: bool, suggestions: seq<Notice>)

  /** `initialState`: an empty, closed, simple search. */
  const InitialSearch := Search("", Simple, false, [])

  /** `setQuery`: only the query changes. */
  function WithQuery(s: Search, q: string): (r: Search)
    ensures r.query == q && r.(query := s.query) == s
  {
    s.(query := q)
  }

  /** `setMode`: only the mode changes. */
  function WithMode(s: Search, m: SearchMode): (r: Search)
    ensures r.mode == m && r.(mode := s.mode) == s
  {
    s.(mode := m)
  }

  /** `setIsOpen`: only the open flag changes. */
  function WithOpen(s: Search, open: bool): (r: Search)
    ensures r.isOpen == open && r.(isOpen := s.isOpen) == s
  {
    s.(isOpen := open)
  }

  /** `setSuggestions`: only the suggestions change. */
  function WithSuggestions(s: Search, ns: seq<Notice>): (r: Search)
    ensures r.suggestions == ns && r.(suggestions := s.suggestions) == s
  {
    s.(suggestions := ns)
  }

  /** `clearSearch`: back to the initial state except that the mode is kept. */
  function Cleared(s: Search): (r: Search)
    ensures r == InitialSearch.(mode := s.mode)
  {
    s.(query := "", suggestions := [], isOpen := false)
  }

  /** Clearing twice is clearing once. */
  lemma ClearSearchIdempotent(s: Search)
    ensures Cleared(Cleared(s)) == Cleared(s)
  {
  }

  class SearchState {
    var query: string
    var mode: SearchMode
    var isOpen: bool
    var suggestions: seq<Notice>

    function Fields(): Search
      reads this
    {
      Search(query, mode, isOpen, suggestions)
    }

    constructor ()
      ensures Fields() == InitialSearch
    {
      query := "";
      mode := Simple;
      isOpen := false;
      suggestions := [];
    }

    method SetQuery(q: string)
      modifies this
      ensures Fields() == WithQuery(old(Fields()), q)
    {
      query := q;
    }

    method SetMode(m: SearchMode)
      modifies this
      ensures Fields() == WithMode(old(Fields()), m)
    {
      mode := m;
    }

    method SetIsOpen(open: bool)
      modifies this
      ensures Fields() == WithOpen(old(Fields()), open)
    {
      isOpen := open;
    }

    method SetSuggestions(ns: seq<Notice>)
      modifies this
      ensures Fields() == WithSuggestions(old(Fields()), ns)
    {
      suggestions := ns;
    }

    method ClearSearch()
      modifies this
      ensures Fields() == Cleared(old(Fields()))
    {
      query := "";
      suggestions := [];
      isOpen := false;
    }
  }
}
