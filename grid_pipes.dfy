/**
 * The grid's data pipes: the `filterCondition` display pipe, which splits a
 * camel-cased condition name into words, and the sorting, paging and
 * filtering pipes, which guard a call into the grid's data utilities and
 * record what they did on the grid. The data utilities themselves
 * (`DataUtil.sort`, `page`, `filter`) are parameters.
 */
module GridPipes {
  import opened Base

  // ---------------------------------------------------------------------
  // filterCondition: `value.split(/(?=[A-Z])/).join(' ')`
  // ---------------------------------------------------------------------

  /** The character class `[A-Z]`. */
  predicate IsUpper(c: char) {
    'A' <= c <= 'Z'
  }

  /**
   * `s.split(/(?=[A-Z])/)`: the string cut before every uppercase letter
   * except one at index 0 (a zero-width match where the current piece
   * starts is skipped); the empty string gives one empty piece.
   */
  function SplitBeforeUpper(s: string): (pieces: seq<string>)
    ensures |pieces| >= 1
    ensures s != [] ==> forall k :: 0 <= k < |pieces| ==> pieces[k] != []
  {
    if |s| <= 1 then [s]
    else
      var pieces := SplitBeforeUpper(s[..|s| - 1]);
      var c := s[|s| - 1];
      if IsUpper(c) then pieces + [[c]]
      else pieces[..|pieces| - 1] + [pieces[|pieces| - 1] + [c]]
  }

  /** `pieces.join(sep)`. */
  function Join(pieces: seq<string>, sep: string): string {
    if pieces == [] then ""
    else if |pieces| == 1 then pieces[0]
    else Join(pieces[..|pieces| - 1], sep) + sep + pieces[|pieces| - 1]
  }

  /** Reference definition: a space inserted before every uppercase letter after the first character. */
  function InsertSpaces(s: string): string {
    if |s| <= 1 then s
    else
      var c := s[|s| - 1];
      InsertSpaces(s[..|s| - 1]) + (if IsUpper(c) then [' ', c] else [c])
  }

  /** Joining one more piece appends the separator and the piece. */
  lemma JoinSnoc(pieces: seq<string>, p: string, sep: string)
    requires pieces != []
    ensures Join(pieces + [p], sep) == Join(pieces, sep) + sep + p
  {
    assert (pieces + [p])[..|pieces|] == pieces;
  }

  /** Extending the last piece by a character extends the joined string by it. */
  lemma JoinExtendLast(pieces: seq<string>, c: char, sep: string)
    requires pieces != []
    ensures Join(pieces[..|pieces| - 1] + [pieces[|pieces| - 1] + [c]], sep) == Join(pieces, sep) + [c]
  {
    var n := |pieces|;
    if n > 1 {
      var init := pieces[..n - 1];
      JoinSnoc(init, pieces[n - 1] + [c], sep);
      JoinSnoc(init, pieces[n - 1], sep);
      assert init + [pieces[n - 1]] == pieces;
    }
  }

  /** Splitting before capitals and joining with a space inserts exactly those spaces. */
  lemma {:induction false} SplitJoinInsertsSpaces(s: string)
    ensures Join(SplitBeforeUpper(s), " ") == InsertSpaces(s)
  {
    if |s| > 1 {
      var init := s[..|s| - 1];
      var c := s[|s| - 1];
      SplitJoinInsertsSpaces(init);
      var pieces := SplitBeforeUpper(init);
      if IsUpper(c) {
        JoinSnoc(pieces, [c], " ");
        assert " " + [c] == [' ', c];
      } else {
        JoinExtendLast(pieces, c, " ");
      }
    }
  }

  /** `IgxGridFilterConditionPipe.transform(value)`. */
  function FilterCondition(value: string): (r: string)
    ensures r == InsertSpaces(value)
  {
    SplitJoinInsertsSpaces(value);
    Join(SplitBeforeUpper(value), " ")
  }

  /** Number of uppercase letters in `s`. */
  function CountUpper(s: string): nat {
    if s == [] then 0 else (if IsUpper(s[0]) then 1 else 0) + CountUpper(s[1..])
  }

  lemma {:induction false} CountUpperAppend(s: string, c: char)
    ensures CountUpper(s + [c]) == CountUpper(s) + (if IsUpper(c) then 1 else 0)
  {
    if s != [] {
      assert (s + [c])[1..] == s[1..] + [c];
      CountUpperAppend(s[1..], c);
    }
  }

  /** The output is longer than the input by the number of uppercase letters after index 0. */
  lemma {:induction false} FilterConditionLength(s: string)
    ensures |FilterCondition(s)| == |s| + (if s == [] then 0 else CountUpper(s[1..]))
  {
    if |s| > 1 {
      var init := s[..|s| - 1];
      FilterConditionLength(init);
      assert s[1..] == init[1..] + [s[|s| - 1]];
      CountUpperAppend(init[1..], s[|s| - 1]);
    } else if |s| == 1 {
      assert s[1..] == [];
    }
  }

  /** `s` with every space removed. */
  function RemoveSpaces(s: string): string {
    if s == [] then []
    else RemoveSpaces(s[..|s| - 1]) + (if s[|s| - 1] == ' ' then [] else [s[|s| - 1]])
  }

  lemma {:induction false} RemoveSpacesAppend(a: string, b: string)
    ensures RemoveSpaces(a + b) == RemoveSpaces(a) + RemoveSpaces(b)
  {
    if b != [] {
      assert (a + b)[..|a + b| - 1] == a + b[..|b| - 1];
      RemoveSpacesAppend(a, b[..|b| - 1]);
    } else {
      assert a + b == a;
    }
  }

  /** Deleting the spaces of the output gives the input with its spaces deleted. */
  lemma {:induction false} FilterConditionRoundTrip(s: string)
    ensures RemoveSpaces(FilterCondition(s)) == RemoveSpaces(s)
  {
    if |s| > 1 {
      var init := s[..|s| - 1];
      var c := s[|s| - 1];
      FilterConditionRoundTrip(init);
      var tail: string := if IsUpper(c) then [' ', c] else [c];
      RemoveSpacesAppend(InsertSpaces(init), tail);
      assert RemoveSpaces(tail) == RemoveSpaces([c]) by {
        if IsUpper(c) {
          assert tail[..1] == [' '];
          assert RemoveSpaces([' ']) == [];
        }
      }
      assert s == init + [c];
      RemoveSpacesAppend(init, [c]);
    }
  }

  /** A string without an uppercase letter after index 0 comes back unchanged. */
  lemma {:induction false} FilterConditionNoUpper(s: string)
    requires forall i :: 1 <= i < |s| ==> !IsUpper(s[i])
    ensures FilterCondition(s) == s
  {
    if |s| > 1 {
      FilterConditionNoUpper(s[..|s| - 1]);
      assert s == s[..|s| - 1] + [s[|s| - 1]];
    }
  }

  // ---------------------------------------------------------------------
  // The sorting, paging and filtering pipes
  // ---------------------------------------------------------------------

  /** A sorting expression; its fields only matter to the data utilities. */
  datatype SortingExpression = SortingExpression(fieldName: string, ascending: bool, ignoreCase: bool)

  /** The paging state the paging pipe hands to the data utilities and records on the grid. */
  datatype PagingState = PagingState(index: int, recordsPerPage: int)

  /** A filtering expressions tree; `filteringOperands` may be missing. */
  datatype FilteringExpressionsTree<Operand> = FilteringExpressionsTree(filteringOperands: Option<seq<Operand>>)

  /** The default page and page size of the paging pipe. */
  const DefaultPage: int := 0
  const DefaultPerPage: int := 15

  /** The grid state the pipes read and write. */
  class Grid<Record> {
    var sortingExpressions: seq<SortingExpression>
    var paging: bool
    var pagingState: Option<PagingState>
    var filteredData: Option<seq<Record>>

    constructor()
      ensures sortingExpressions == [] && !paging && pagingState.None? && filteredData.None?
    {
      sortingExpressions := [];
      paging := false;
      pagingState := None;
      filteredData := None;
    }
  }

  /**
   * `IgxGridSortingPipe.transform`: the collection itself when the grid has
   * no sorting expressions, else `DataUtil.sort` of a copy under the grid's
   * expressions. The `expressions` argument is not read.
   */
  function SortingPipe<Record>(grid: Grid<Record>, collection: seq<Record>, expressions: seq<SortingExpression>,
                               sort: (seq<Record>, seq<SortingExpression>) -> seq<Record>): (r: seq<Record>)
    reads grid
    ensures grid.sortingExpressions == [] ==> r == collection
    ensures grid.sortingExpressions != [] ==> r == sort(collection, grid.sortingExpressions)
  {
    if |grid.sortingExpressions| == 0 then collection else sort(collection, grid.sortingExpressions)
  }

  /**
   * `IgxGridPagingPipe.transform`: the collection itself when paging is
   * off; otherwise `DataUtil.page` of a copy, with the state recorded on
   * the grid. A missing page or page size takes its default.
   */
  method PagingPipe<Record>(grid: Grid<Record>, collection: seq<Record>, page: Option<int>, perPage: Option<int>,
                            pageFn: (seq<Record>, PagingState) -> seq<Record>)
    returns (r: seq<Record>)
    modifies grid`pagingState
    ensures !grid.paging ==> r == collection && grid.pagingState == old(grid.pagingState)
    ensures grid.paging ==>
      var state := PagingState(if page.Some? then page.value else DefaultPage,
                               if perPage.Some? then perPage.value else DefaultPerPage);
      r == pageFn(collection, state) && grid.pagingState == Some(state)
  {
    if !grid.paging {
      return collection;
    }
    var state := PagingState(if page.Some? then page.value else DefaultPage,
                             if perPage.Some? then perPage.value else DefaultPerPage);
    r := pageFn(collection, state);
    grid.pagingState := Some(state);
  }

  /** Whether the filtering pipe has nothing to do: no tree, no operands, or an empty operand list. */
  predicate NoFilter<Operand>(tree: Option<FilteringExpressionsTree<Operand>>) {
    tree.None? || tree.value.filteringOperands.None? || |tree.value.filteringOperands.value| == 0
  }

  /**
   * `IgxGridFilteringPipe.transform`: the collection itself when there is
   * nothing to filter by; otherwise `DataUtil.filter` of a copy, which is
   * also stored as the grid's filtered data.
   */
  method FilteringPipe<Record, Operand>(grid: Grid<Record>, collection: seq<Record>,
                                        expressionsTree: Option<FilteringExpressionsTree<Operand>>,
                                        filter: (seq<Record>, FilteringExpressionsTree<Operand>) -> seq<Record>)
    returns (r: seq<Record>)
    modifies grid`filteredData
    ensures NoFilter(expressionsTree) ==> r == collection && grid.filteredData == old(grid.filteredData)
    ensures !NoFilter(expressionsTree) ==>
      r == filter(collection, expressionsTree.value) && grid.filteredData == Some(r)
  {
    if NoFilter(expressionsTree) {
      return collection;
    }
    r := filter(collection, expressionsTree.value);
    grid.filteredData := Some(r);
  }
}
