/**
 * The handlers of src/components/Search/SearchBar.tsx: the suggestion filter
 * run on every keystroke, the suggestion click and the mode toggle. Each
 * handler dispatches to the search state, which it receives as a parameter.
 */
module SearchBar {
  import opened Types
  import opened Text
  import opened SearchSlice

  /** At most this many suggestions are shown. */
  const MaxSuggestions := 5

  /** The title contains the query, both lowered. */
  predicate SimpleMatch(n: Notice, q: string)
  {
    Includes(Lower(n.title), Lower(q))
  }

  /** The title, the description or one of the tags contains the query, all lowered. */
  predicate AdvancedMatch(n: Notice, q: string)
  {
    SimpleMatch(n, q) || Includes(Lower(n.description), Lower(q)) ||
    exists i :: 0 <= i < |n.tags| && Includes(Lower(n.tags[i]), Lower(q))
  }

  predicate Matches(n: Notice, q: string, mode: SearchMode)
  {
    if mode == Simple then SimpleMatch(n, q) else AdvancedMatch(n, q)
  }

  /** `notices.filter(...)`: the matching notices, in order. */
  function Filtered(ns: seq<Notice>, q: string, mode: SearchMode): (r: seq<Notice>)
    ensures |r| <= |ns|
  {
    if ns == [] then []
    else
      var k := |ns| - 1;
      Filtered(ns[..k], q, mode) + if Matches(ns[k], q, mode) then [ns[k]] else []
  }

  /** The filter keeps exactly the matching notices. */
  lemma {:induction false} FilteredMembers(ns: seq<Notice>, q: string, mode: SearchMode)
    ensures forall n :: n in Filtered(ns, q, mode) <==> n in ns && Matches(n, q, mode)
  {
    if ns != [] {
      var k := |ns| - 1;
      FilteredMembers(ns[..k], q, mode);
      assert ns == ns[..k] + [ns[k]];
    }
  }

  /** The indices of the matching notices of `ns`, in increasing order. */
  function MatchSlots(ns: seq<Notice>, q: string, mode: SearchMode): (r: seq<nat>)
    ensures forall j :: 0 <= j < |r| ==> r[j] < |ns| && Matches(ns[r[j]], q, mode)
    ensures forall j, k :: 0 <= j < k < |r| ==> r[j] < r[k]
    ensures forall i :: 0 <= i < |ns| && Matches(ns[i], q, mode) ==> i in r
  {
    if ns == [] then []
    else
      var k := |ns| - 1;
      assert forall i :: 0 <= i < k ==> ns[..k][i] == ns[i];
      MatchSlots(ns[..k], q, mode) + if Matches(ns[k], q, mode) then [k] else []
  }

  /** The filter lists the notices at the matching indices, in order. */
  lemma {:induction false} FilteredAtSlots(ns: seq<Notice>, q: string, mode: SearchMode)
    ensures |Filtered(ns, q, mode)| == |MatchSlots(ns, q, mode)|
    ensures forall j :: 0 <= j < |Filtered(ns, q, mode)| ==> Filtered(ns, q, mode)[j] == ns[MatchSlots(ns, q, mode)[j]]
  {
    if ns != [] {
      var k := |ns| - 1;
      FilteredAtSlots(ns[..k], q, mode);
      assert forall i :: 0 <= i < k ==> ns[..k][i] == ns[i];
    }
  }

  /**
   * `filter(...).slice(0, 5)`: the matching notices at the first five
   * matching indices, or all of them when fewer match.
   */
  function Suggestions(ns: seq<Notice>, q: string, mode: SearchMode): (r: seq<Notice>)
    ensures |r| == if |Filtered(ns, q, mode)| < MaxSuggestions then |Filtered(ns, q, mode)| else MaxSuggestions
    ensures |r| <= |MatchSlots(ns, q, mode)|
    ensures forall j :: 0 <= j < |r| ==> r[j] == ns[MatchSlots(ns, q, mode)[j]]
    ensures forall n :: n in r ==> n in ns && Matches(n, q, mode)
    ensures |Filtered(ns, q, mode)| <= MaxSuggestions ==> forall n :: n in ns && Matches(n, q, mode) ==> n in r
  {
    var f := Filtered(ns, q, mode);
    FilteredMembers(ns, q, mode);
    FilteredAtSlots(ns, q, mode);
    if |f| <= MaxSuggestions then f
    else
      assert forall n :: n in f[..MaxSuggestions] ==> n in f;
      f[..MaxSuggestions]
  }

  /**
   * The suggestions are the earliest matches: every matching notice at an
   * index up to the last suggestion's is a suggestion.
   */
  lemma SuggestionsAreTheEarliest(ns: seq<Notice>, q: string, mode: SearchMode, i: nat)
    requires i < |ns| && Matches(ns[i], q, mode)
    requires |Suggestions(ns, q, mode)| > 0 && i <= MatchSlots(ns, q, mode)[|Suggestions(ns, q, mode)| - 1]
    ensures ns[i] in Suggestions(ns, q, mode)
  {
    var r, s := Suggestions(ns, q, mode), MatchSlots(ns, q, mode);
    var j :| 0 <= j < |s| && s[j] == i;
    assert j < |r|;
    assert r[j] == ns[i];
  }

  /** The filter distributes over concatenation: matches keep their collection order. */
  lemma {:induction false} FilteredAppend(a: seq<Notice>, b: seq<Notice>, q: string, mode: SearchMode)
    ensures Filtered(a + b, q, mode) == Filtered(a, q, mode) + Filtered(b, q, mode)
  {
    if b == [] {
      assert a + b == a;
    } else {
      var n := |b| - 1;
      assert (a + b)[..|a| + n] == a + b[..n];
      assert (a + b)[|a| + n] == b[n];
      FilteredAppend(a, b[..n], q, mode);
    }
  }

  /** `value.trim().length > 1`, with the length in UTF-16 code units. */
  predicate Gate(value: string)
  {
    Utf16Length(Trim(value)) > 1
  }

  /** Every notice the simple search finds, the advanced search finds too. */
  lemma SimpleFindsLess(ns: seq<Notice>, q: string)
    ensures forall n :: n in Filtered(ns, q, Simple) ==> n in Filtered(ns, q, Advanced)
    ensures |Filtered(ns, q, Simple)| <= |Filtered(ns, q, Advanced)|
  {
    FilteredMembers(ns, q, Simple);
    FilteredMembers(ns, q, Advanced);
    SimpleFindsLessCount(ns, q);
  }

  lemma {:induction false} SimpleFindsLessCount(ns: seq<Notice>, q: string)
    ensures |Filtered(ns, q, Simple)| <= |Filtered(ns, q, Advanced)|
  {
    if ns != [] {
      SimpleFindsLessCount(ns[..|ns| - 1], q);
    }
  }

  /** A blank query never passes the gate. */
  lemma BlankNeverSearches(value: string)
    requires forall k :: 0 <= k < |value| ==> IsJsSpace(value[k])
    ensures !Gate(value)
  {
  }

  /** Any two characters that are not whitespace pass the gate wherever they stand. */
  lemma TwoCharactersSearch(value: string, i: nat, j: nat)
    requires i < j < |value| && !IsJsSpace(value[i]) && !IsJsSpace(value[j])
    ensures Gate(value)
  {
    var t := Trim(value);
    assert t != [];
    var a, b := LeadingSpaces(value), TrailingStart(value);
    assert a <= i && j < b;
  }

  /**
   * The gate trims the query but the filter does not: " ab" passes the gate
   * and then fails to match a notice titled "ab".
   */
  lemma GateTrimsButFilterDoesNot()
    ensures var n := Notice("1", "3", "ab", "", [], 0, "", "");
      Gate(" ab") && Suggestions([n], " ab", Simple) == []
  {
    var n := Notice("1", "3", "ab", "", [], 0, "", "");
    assert LeadingSpaces(" ab") == 1;
    assert TrailingStart(" ab") == 3;
    assert Trim(" ab") == "ab";
    assert Lower(" ab") == " ab";
    assert Lower("ab") == "ab";
    assert !Includes("", " ab");
    assert !Includes("b", " ab");
    assert !SimpleMatch(n, " ab");
    assert [n][..0] == [];
  }

  /**
   * The simple search for "Budget" finds a notice titled "Budget" but not one
   * that only carries the tag; the advanced search finds both.
   */
  lemma TitleAgainstTag()
    ensures var titled := Notice("3", "3", "Budget", "", [], 2, "", "");
      var tagged := Notice("6", "3", "Plans", "", ["Budget"], 3, "", "");
      Matches(titled, "Budget", Simple) && Matches(titled, "Budget", Advanced) &&
      !Matches(tagged, "Budget", Simple) && Matches(tagged, "Budget", Advanced)
  {
    var tagged := Notice("6", "3", "Plans", "", ["Budget"], 3, "", "");
    assert Lower("Budget") == "budget";
    assert Lower("Plans") == "plans";
    assert Lower("") == "";
    assert StartsWith("budget", "budget");
    assert !Includes("", "budget");
    assert !Includes("s", "budget") && !Includes("ns", "budget") && !Includes("ans", "budget");
    assert !Includes("lans", "budget") && !Includes("plans", "budget");
    assert Includes(Lower(tagged.tags[0]), Lower("Budget"));
  }

  /**
   * `handleQueryChange`: stores the query, then either opens the first five
   * matches in the current mode or clears and closes the suggestions.
   */
  method HandleQueryChange(search: SearchState, notices: seq<Notice>, value: string)
    modifies search
    ensures search.query == value && search.mode == old(search.mode)
    ensures Gate(value) ==> search.suggestions == Suggestions(notices, value, old(search.mode)) && search.isOpen
    ensures !Gate(value) ==> search.suggestions == [] && !search.isOpen
  {
    var mode := search.mode;
    search.SetQuery(value);
    if Gate(value) {
      search.SetSuggestions(Suggestions(notices, value, mode));
      search.SetIsOpen(true);
    } else {
      search.SetSuggestions([]);
      search.SetIsOpen(false);
    }
  }

  /** `handleSuggestionClick`: the query becomes the notice's title and the list closes. */
  method HandleSuggestionClick(search: SearchState, notice: Notice)
    modifies search
    ensures search.query == notice.title && !search.isOpen
    ensures search.mode == old(search.mode) && search.suggestions == old(search.suggestions)
  {
    search.SetQuery(notice.title);
    search.SetIsOpen(false);
  }

  /** The other mode. */
  function Toggled(m: SearchMode): (r: SearchMode)
    ensures r != m
  {
    if m == Simple then Advanced else Simple
  }

  /** `toggleMode`. */
  method ToggleMode(search: SearchState)
    modifies search
    ensures search.mode == Toggled(old(search.mode))
    ensures search.query == old(search.query) && search.isOpen == old(search.isOpen)
    ensures search.suggestions == old(search.suggestions)
  {
    search.SetMode(Toggled(search.mode));
  }
}
