/**
 * The reconciliation engine: every task is matched, at read time, against the
 * catalog by reference first-or-name, in catalog order. Nothing is cached, so
 * any edit of the catalog or of a task shows in the next evaluation.
 */
module Reconciliation {
  import opened Base
  import opened Types
  import opened Text
  import opened Seqs
  import opened KeyedList

  /**
   * Clause (a): the task's reference equals the product's once both are
   * lower-cased and trimmed. The order of the two steps does not matter.
   */
  predicate ReferenceMatches(t: ProjectTask, p: Product): (b: bool)
    ensures b <==> t.reference != "" && ToLower(Trim(p.reference)) == ToLower(Trim(t.reference))
  {
    TrimLowerCommute(p.reference);
    TrimLowerCommute(t.reference);
    t.reference != "" && Trim(ToLower(p.reference)) == Trim(ToLower(t.reference))
  }

  /** Clause (b): the lower-cased task name occurs in the lower-cased product name (no trimming). */
  predicate NameMatches(t: ProjectTask, p: Product): (b: bool)
    ensures b ==> 0 < |t.name| <= |p.name|
  {
    t.name != "" && Contains(ToLower(p.name), ToLower(t.name))
  }

  /** A product is a candidate for a task when either clause holds; a task with neither a reference nor a name has none. */
  predicate Matches(t: ProjectTask, p: Product): (b: bool)
    ensures b ==> t.reference != "" || t.name != ""
  {
    ReferenceMatches(t, p) || NameMatches(t, p)
  }

  /** Position of the first candidate for `t` in catalog order, or `|catalog|` when there is none. */
  function FirstMatchIndex(t: ProjectTask, catalog: seq<Product>): (k: nat)
    ensures k <= |catalog|
    ensures forall j :: 0 <= j < k ==> !Matches(t, catalog[j])
    ensures k < |catalog| ==> Matches(t, catalog[k])
  {
    FirstIndex(catalog, p => Matches(t, p))
  }

  /** `getMatch`: the first catalog product that matches the task, if any. */
  function GetMatch(t: ProjectTask, catalog: seq<Product>): (r: Option<Product>)
    ensures t.reference == "" && t.name == "" ==> r == None
    ensures r.None? <==> forall j :: 0 <= j < |catalog| ==> !Matches(t, catalog[j])
    ensures r.Some? ==> exists k :: && 0 <= k < |catalog| && catalog[k] == r.value && Matches(t, catalog[k])
                                    && forall j :: 0 <= j < k ==> !Matches(t, catalog[j])
  {
    if t.reference == "" && t.name == "" then None
    else
      var k := FirstMatchIndex(t, catalog);
      if k < |catalog| then Some(catalog[k]) else None
  }

  /** A product whose normalised reference equals the task's always yields a match (maybe an earlier product). */
  lemma ReferenceEqualityFindsMatch(t: ProjectTask, catalog: seq<Product>, i: nat)
    requires i < |catalog| && t.reference != ""
    requires Trim(ToLower(t.reference)) == Trim(ToLower(catalog[i].reference))
    ensures GetMatch(t, catalog).Some?
  {
    assert Matches(t, catalog[i]);
  }

  /** Adding products at the end of the catalog never changes an existing match. */
  lemma MatchStableUnderAppend(t: ProjectTask, catalog: seq<Product>, more: seq<Product>)
    requires GetMatch(t, catalog).Some?
    ensures GetMatch(t, catalog + more) == GetMatch(t, catalog)
  {
    var k := FirstMatchIndex(t, catalog);
    var all := catalog + more;
    assert forall j :: 0 <= j <= k ==> all[j] == catalog[j];
    FirstMatchIndexIs(t, all, k);
  }

  lemma FirstMatchIndexIs(t: ProjectTask, catalog: seq<Product>, k: nat)
    requires k < |catalog| && Matches(t, catalog[k])
    requires forall j :: 0 <= j < k ==> !Matches(t, catalog[j])
    ensures FirstMatchIndex(t, catalog) == k
  {
  }

  /** After a product is deleted from the catalog, no task is matched to a product with that reference. */
  lemma NoStaleMatchAfterDelete(t: ProjectTask, catalog: seq<Product>, reference: string)
    ensures var r := GetMatch(t, RemoveKey(catalog, ProductReference, reference));
      r.Some? ==> r.value in catalog && r.value.reference != reference
  {
    var r := GetMatch(t, RemoveKey(catalog, ProductReference, reference));
    if r.Some? {
      RemoveKeyMembership(catalog, ProductReference, reference, r.value);
    }
  }

  /** A task whose only candidates had the deleted reference becomes unmatched. */
  lemma DeletingOnlyCandidateUnmatches(t: ProjectTask, catalog: seq<Product>, reference: string)
    requires forall j :: 0 <= j < |catalog| && Matches(t, catalog[j]) ==> catalog[j].reference == reference
    ensures GetMatch(t, RemoveKey(catalog, ProductReference, reference)) == None
  {
    var rest := RemoveKey(catalog, ProductReference, reference);
    forall j | 0 <= j < |rest| ensures !Matches(t, rest[j]) {
      RemoveKeyMembership(catalog, ProductReference, reference, rest[j]);
    }
  }

  /** Selecting a catalog product for a task makes the task matched (unless the product is all blank). */
  lemma SelectedProductIsMatched(t: ProjectTask, catalog: seq<Product>, i: nat)
    requires i < |catalog|
    requires catalog[i].reference != "" || catalog[i].name != ""
    ensures GetMatch(t.(name := catalog[i].name, reference := catalog[i].reference), catalog).Some?
  {
    var u := t.(name := catalog[i].name, reference := catalog[i].reference);
    ContainsSelf(ToLower(catalog[i].name));
    assert Matches(u, catalog[i]);
  }

  /** The predicate "this task has a match in `catalog`". */
  function IsMatchedIn(catalog: seq<Product>): ProjectTask -> bool
  {
    t => GetMatch(t, catalog).Some?
  }

  /** `matchedTasksCount`: the number of tasks that have a match. */
  function MatchedTasksCount(tasks: seq<ProjectTask>, catalog: seq<Product>): (n: nat)
    ensures n <= |tasks|
    ensures n == 0 <==> forall i :: 0 <= i < |tasks| ==> GetMatch(tasks[i], catalog).None?
  {
    var matched := Filter(tasks, IsMatchedIn(catalog));
    if matched == [] then
      FilterKeepsNone(tasks, IsMatchedIn(catalog));
      0
    else
      assert IsMatchedIn(catalog)(matched[0]);
      FilterMembership(tasks, IsMatchedIn(catalog), matched[0]);
      |matched|
  }

  lemma {:induction false} FilterKeepsNone<T>(xs: seq<T>, f: T -> bool)
    requires Filter(xs, f) == []
    ensures forall i :: 0 <= i < |xs| ==> !f(xs[i])
  {
    if xs != [] {
      FilterKeepsNone(xs[1..], f);
      assert forall i :: 1 <= i < |xs| ==> xs[i] == xs[1..][i - 1];
    }
  }

  /** A task paired with its match (`{ task, product: getMatch(task) }`). */
  datatype MatchPair = MatchPair(task: ProjectTask, product: Option<Product>)

  /** `tasks.map(task => ({ task, product: getMatch(task) }))`. */
  function PairWithMatch(tasks: seq<ProjectTask>, catalog: seq<Product>): (ms: seq<MatchPair>)
    ensures |ms| == |tasks|
    ensures forall i :: 0 <= i < |ms| ==> ms[i].task == tasks[i] && ms[i].product == GetMatch(tasks[i], catalog)
    ensures forall m :: m in ms ==> m.product == GetMatch(m.task, catalog)
  {
    if tasks == [] then [] else [MatchPair(tasks[0], GetMatch(tasks[0], catalog))] + PairWithMatch(tasks[1..], catalog)
  }

  predicate HasProduct(m: MatchPair) { m.product.Some? }

  /** `validMatches`: the tasks that have a match, each with its product, in task order. */
  function ValidMatches(tasks: seq<ProjectTask>, catalog: seq<Product>): (vm: seq<MatchPair>)
    ensures forall i :: 0 <= i < |vm| ==> vm[i].product.Some? && vm[i].product == GetMatch(vm[i].task, catalog)
  {
    var ms := PairWithMatch(tasks, catalog);
    var vm := Filter(ms, HasProduct);
    forall i | 0 <= i < |vm| ensures vm[i].product == GetMatch(vm[i].task, catalog) {
      FilterMembership(ms, HasProduct, vm[i]);
    }
    vm
  }

  function TasksOf(ms: seq<MatchPair>): seq<ProjectTask>
  {
    seq(|ms|, i requires 0 <= i < |ms| => ms[i].task)
  }

  /** The products sent for visualization: the match of each valid task, in task order. */
  function ProductsOf(ms: seq<MatchPair>): (ps: seq<Product>)
    requires forall i :: 0 <= i < |ms| ==> ms[i].product.Some?
    ensures |ps| == |ms|
  {
    seq(|ms|, i requires 0 <= i < |ms| => ms[i].product.value)
  }

  /** The tasks of `validMatches` are exactly the matched tasks, in order. */
  lemma {:induction false} ValidMatchesAreMatchedTasks(tasks: seq<ProjectTask>, catalog: seq<Product>)
    ensures TasksOf(ValidMatches(tasks, catalog)) == Filter(tasks, IsMatchedIn(catalog))
  {
    if tasks != [] {
      ValidMatchesAreMatchedTasks(tasks[1..], catalog);
      var head := MatchPair(tasks[0], GetMatch(tasks[0], catalog));
      var rest := ValidMatches(tasks[1..], catalog);
      var kept := Filter(tasks[1..], IsMatchedIn(catalog));
      ValidMatchesStep(tasks, catalog);
      if HasProduct(head) {
        calc {
          TasksOf(ValidMatches(tasks, catalog));
          TasksOf([head] + rest);
          { TasksOfCons(head, rest); }
          [tasks[0]] + TasksOf(rest);
          [tasks[0]] + kept;
          Filter(tasks, IsMatchedIn(catalog));
        }
      } else {
        calc {
          TasksOf(ValidMatches(tasks, catalog));
          TasksOf(rest);
          kept;
          Filter(tasks, IsMatchedIn(catalog));
        }
      }
    }
  }

  lemma TasksOfCons(m: MatchPair, ms: seq<MatchPair>)
    ensures TasksOf([m] + ms) == [m.task] + TasksOf(ms)
  {
  }

  /** One step of `ValidMatches` and of the matched-task filter, on the first task. */
  lemma ValidMatchesStep(tasks: seq<ProjectTask>, catalog: seq<Product>)
    requires tasks != []
    ensures var head := MatchPair(tasks[0], GetMatch(tasks[0], catalog));
      && ValidMatches(tasks, catalog)
         == (if HasProduct(head) then [head] else []) + ValidMatches(tasks[1..], catalog)
      && Filter(tasks, IsMatchedIn(catalog))
         == (if HasProduct(head) then [tasks[0]] else []) + Filter(tasks[1..], IsMatchedIn(catalog))
  {
    var ms := PairWithMatch(tasks, catalog);
    assert ms[1..] == PairWithMatch(tasks[1..], catalog);
    assert IsMatchedIn(catalog)(tasks[0]) == GetMatch(tasks[0], catalog).Some?;
  }

  /** Visualization is offered exactly when the validated count is positive, i.e. `validMatches` is non-empty. */
  lemma ValidMatchesCount(tasks: seq<ProjectTask>, catalog: seq<Product>)
    ensures |ValidMatches(tasks, catalog)| == MatchedTasksCount(tasks, catalog)
  {
    ValidMatchesAreMatchedTasks(tasks, catalog);
    assert |TasksOf(ValidMatches(tasks, catalog))| == |ValidMatches(tasks, catalog)|;
  }

  /** A new, all-blank task is never matched, so adding one leaves the validated count unchanged. */
  lemma BlankTaskNeverCounts(tasks: seq<ProjectTask>, catalog: seq<Product>, id: string)
    ensures MatchedTasksCount(tasks + [ProjectTask(id, "", "", "", "")], catalog) == MatchedTasksCount(tasks, catalog)
  {
    FilterAppend(tasks, [ProjectTask(id, "", "", "", "")], IsMatchedIn(catalog));
  }

  /** The product drop-down keeps a product when the task name is empty or occurs in its name or reference. */
  predicate Offered(taskName: string, p: Product)
  {
    || taskName == ""
    || Contains(ToLower(p.name), ToLower(taskName))
    || Contains(ToLower(p.reference), ToLower(taskName))
  }

  function OfferedFor(taskName: string): Product -> bool
  {
    p => Offered(taskName, p)
  }

  /** The drop-down's product list for a task name. */
  function DropdownOptions(catalog: seq<Product>, taskName: string): (opts: seq<Product>)
    ensures |opts| <= |catalog|
    ensures forall i :: 0 <= i < |opts| ==> Offered(taskName, opts[i])
  {
    Filter(catalog, OfferedFor(taskName))
  }

  /** With an empty task name the drop-down lists the whole catalog. */
  lemma DropdownListsAllForEmptyName(catalog: seq<Product>)
    ensures DropdownOptions(catalog, "") == catalog
  {
    FilterKeepsAll(catalog, OfferedFor(""));
  }

  /** Every product the name clause would match is offered in the drop-down. */
  lemma NameMatchIsOffered(t: ProjectTask, catalog: seq<Product>, p: Product)
    requires p in catalog && NameMatches(t, p)
    ensures p in DropdownOptions(catalog, t.name)
  {
    FilterMembership(catalog, OfferedFor(t.name), p);
  }
}
