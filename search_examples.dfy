/** The searches of the repository's end-to-end suite, on its three todos: two in "study", one in
    "work", and the third one marked completed. Each query is read through the controller's
    query parsing, so these pin down query string, filter object and filter passes together. */
module SearchExamples {
  import opened Wrappers
  import opened TodoModel
  import Seqs
  import Text
  import TodoController

  const First: Todo := Todo("1", "Todo 1", "Description work 1", "work", false, "u", 0, 0)
  const Second: Todo := Todo("2", "Todo 2", "Description study 2", "study", false, "u", 0, 0)
  const Third: Todo := Todo("3", "Todo 3", "Description study 3", "study", true, "u", 0, 1)
  const Store: seq<Todo> := [First, Second, Third]

  function Search(query: seq<(string, string)>): seq<Todo> {
    FindAllTodos(Store, Some(TodoController.QueryFilters(query)))
  }

  /** A filter over the three todos keeps those the predicate holds of, in order. */
  lemma FilterStore(p: Todo -> bool)
    ensures Seqs.Filter(Store, p) ==
      (if p(First) then [First] else []) + (if p(Second) then [Second] else []) +
      (if p(Third) then [Third] else [])
  {
    assert Store[1..] == [Second, Third];
    assert [Second, Third][1..] == [Third];
    assert [Third][1..] == [];
    calc {
      Seqs.Filter(Store, p);
      (if p(First) then [First] else []) + Seqs.Filter([Second, Third], p);
      (if p(First) then [First] else []) + ((if p(Second) then [Second] else []) + Seqs.Filter([Third], p));
    }
  }

  /** "study", in either case, occurs at position 12 of a description "Description study n". */
  lemma StudyAt12(t: Todo)
    requires |t.description| == 19 && t.description[..18] == "Description study "
    ensures DescriptionContains(t, "study")
  {
    var d := Text.ToLower(t.description);
    var part := Text.ToLower("study");
    assert part == "study";
    assert d[12..17] == "study" by {
      forall j | 0 <= j < 5 ensures d[12 + j] == "study"[j] {
        assert t.description[12 + j] == "study"[j];
      }
    }
    assert Text.InfixAt(d, part, 12);
  }

  /** A description with no letter y, in either case, does not contain "study". */
  lemma NoLetterY(t: Todo)
    requires 'y' !in t.description && 'Y' !in t.description
    ensures !DescriptionContains(t, "study")
  {
    var d := Text.ToLower(t.description);
    forall i | 0 <= i < |d| ensures d[i] != 'y' {
      assert t.description[i] in t.description;
    }
    assert Text.ToLower("study")[4] == 'y';
    assert 'y' in Text.ToLower("study") && 'y' !in d;
  }

  /** The description search for "study" on the three todos. */
  lemma StudyDescriptions()
    ensures !DescriptionContains(First, "study")
    ensures DescriptionContains(Second, "study") && DescriptionContains(Third, "study")
  {
    NoLetterY(First);
    StudyAt12(Second);
    StudyAt12(Third);
  }

  lemma NoFilter()
    ensures Search([]) == Store
  {
    FilterStore(Matching(Some(TodoController.QueryFilters([]))));
  }

  lemma ByCategory()
    ensures Search([("category", "work")]) == [First]
  {
    var f := TodoController.QueryFilters([("category", "work")]);
    assert f == Filters(None, None, Some("work"), None, None);
    FilterStore(Matching(Some(f)));
  }

  lemma ByTitle()
    ensures Search([("title", "Todo 1")]) == [First]
  {
    var f := TodoController.QueryFilters([("title", "Todo 1")]);
    assert f == Filters(Some("Todo 1"), None, None, None, None);
    FilterStore(Matching(Some(f)));
  }

  lemma ByDescription()
    ensures Search([("description", "study")]) == [Second, Third]
  {
    var f := TodoController.QueryFilters([("description", "study")]);
    assert f == Filters(None, Some("study"), None, None, None);
    StudyDescriptions();
    FilterStore(Matching(Some(f)));
  }

  lemma ByCompleted()
    ensures Search([("completed", "true")]) == [Third]
  {
    var f := TodoController.QueryFilters([("completed", "true")]);
    assert f == Filters(None, None, None, Some(true), None);
    FilterStore(Matching(Some(f)));
  }

  lemma ByTitleAndDescription()
    ensures Search([("title", "Todo 3"), ("description", "study")]) == [Third]
  {
    var f := TodoController.QueryFilters([("title", "Todo 3"), ("description", "study")]);
    assert f == Filters(Some("Todo 3"), Some("study"), None, None, None);
    StudyDescriptions();
    FilterStore(Matching(Some(f)));
  }
}
