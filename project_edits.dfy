/**
 * The edits the matcher screen makes to a project. Each builds the whole
 * new project (`{ ...project, tasks: ... }`) from the old one; the screen
 * then saves it.
 */
module ProjectEdits {
  import opened Base
  import opened Types
  import opened Seqs
  import opened KeyedList
  import opened Reconciliation

  /** The all-empty task `addTask` creates. */
  function BlankTask(id: string): ProjectTask
  {
    ProjectTask(id, "", "", "", "")
  }

  /** `addTask`: one blank task at the end. */
  function WithTaskAdded(p: Project, id: string): (r: Project)
    ensures r == p.(tasks := r.tasks)
    ensures |r.tasks| == |p.tasks| + 1 && r.tasks[..|p.tasks|] == p.tasks
    ensures var t := r.tasks[|p.tasks|]; t.id == id && forall f :: f != IdField ==> FieldOf(t, f) == ""
  {
    p.(tasks := p.tasks + [BlankTask(id)])
  }

  /** `removeTask`: every task with the id goes, the others stay in order. */
  function WithoutTask(p: Project, id: string): (r: Project)
    ensures r == p.(tasks := r.tasks)
    ensures forall t :: t in r.tasks <==> t in p.tasks && t.id != id
  {
    var tasks := RemoveKey(p.tasks, TaskId, id);
    assert forall t :: t in tasks <==> t in p.tasks && t.id != id by {
      forall t ensures t in tasks <==> t in p.tasks && t.id != id {
        RemoveKeyMembership(p.tasks, TaskId, id, t);
      }
    }
    p.(tasks := tasks)
  }

  /** `updateTask`: the named field of every task with the id is set to the value. */
  function WithTaskField(p: Project, id: string, f: TaskField, v: string): (r: Project)
    ensures r == p.(tasks := r.tasks)
    ensures |r.tasks| == |p.tasks|
    ensures forall i :: 0 <= i < |p.tasks| && p.tasks[i].id == id ==> FieldOf(r.tasks[i], f) == v
    ensures forall i, g :: 0 <= i < |p.tasks| && (p.tasks[i].id != id || g != f) ==>
      FieldOf(r.tasks[i], g) == FieldOf(p.tasks[i], g)
  {
    p.(tasks := seq(|p.tasks|, i requires 0 <= i < |p.tasks| =>
      if p.tasks[i].id == id then WithField(p.tasks[i], f, v) else p.tasks[i]))
  }

  /** `selectProductForTask`: the name and reference of every task with the id are copied from the product. */
  function WithProductSelected(p: Project, id: string, product: Product): (r: Project)
    ensures r == p.(tasks := r.tasks)
    ensures |r.tasks| == |p.tasks|
    ensures forall i :: 0 <= i < |p.tasks| && p.tasks[i].id == id ==>
      r.tasks[i].name == product.name && r.tasks[i].reference == product.reference
    ensures forall i, g :: 0 <= i < |p.tasks| && (p.tasks[i].id != id || g !in {NameField, ReferenceField}) ==>
      FieldOf(r.tasks[i], g) == FieldOf(p.tasks[i], g)
  {
    p.(tasks := seq(|p.tasks|, i requires 0 <= i < |p.tasks| =>
      if p.tasks[i].id == id then p.tasks[i].(name := product.name, reference := product.reference) else p.tasks[i]))
  }

  /** The imports: new tasks go after the existing ones. */
  function WithTasksAppended(p: Project, newTasks: seq<ProjectTask>): (r: Project)
    ensures r == p.(tasks := r.tasks)
    ensures |r.tasks| == |p.tasks| + |newTasks|
    ensures r.tasks[..|p.tasks|] == p.tasks && r.tasks[|p.tasks|..] == newTasks
  {
    p.(tasks := p.tasks + newTasks)
  }

  /** A generated image joins the end of the history. */
  function WithImageAppended(p: Project, image: string): (r: Project)
    ensures r == p.(generatedImages := r.generatedImages)
    ensures |r.generatedImages| == |p.generatedImages| + 1
    ensures r.generatedImages[..|p.generatedImages|] == p.generatedImages
    ensures r.generatedImages[|p.generatedImages|] == image
  {
    p.(generatedImages := p.generatedImages + [image])
  }

  /** `t.field || ''`: a missing extracted field becomes "". */
  function TaskFromPartial(pt: PartialTask, id: string): ProjectTask
  {
    ProjectTask(id, pt.reference.GetOr(""), pt.name.GetOr(""), pt.location.GetOr(""), pt.description.GetOr(""))
  }

  /** The tasks made from an extraction result, `ids(i)` being the id generated for entry `i`. */
  function TasksFromExtraction(parsed: seq<PartialTask>, ids: nat -> string): (ts: seq<ProjectTask>)
    ensures |ts| == |parsed|
    ensures forall i :: 0 <= i < |ts| ==> ts[i].id == ids(i)
    ensures forall i :: 0 <= i < |ts| ==>
      && (parsed[i].reference.Some? ==> ts[i].reference == parsed[i].reference.value)
      && (parsed[i].name.Some? ==> ts[i].name == parsed[i].name.value)
      && (parsed[i].location.Some? ==> ts[i].location == parsed[i].location.value)
      && (parsed[i].description.Some? ==> ts[i].description == parsed[i].description.value)
    ensures forall i :: 0 <= i < |ts| ==>
      && (parsed[i].reference.None? ==> ts[i].reference == "")
      && (parsed[i].name.None? ==> ts[i].name == "")
      && (parsed[i].location.None? ==> ts[i].location == "")
      && (parsed[i].description.None? ==> ts[i].description == "")
  {
    seq(|parsed|, i requires 0 <= i < |parsed| => TaskFromPartial(parsed[i], ids(i)))
  }

  /** Two tasks that agree on every field are the same task. */
  lemma TaskExtensionality(t: ProjectTask, u: ProjectTask)
    requires forall f :: FieldOf(t, f) == FieldOf(u, f)
    ensures t == u
  {
    assert FieldOf(t, IdField) == FieldOf(u, IdField);
    assert FieldOf(t, ReferenceField) == FieldOf(u, ReferenceField);
    assert FieldOf(t, NameField) == FieldOf(u, NameField);
    assert FieldOf(t, LocationField) == FieldOf(u, LocationField);
    assert FieldOf(t, DescriptionField) == FieldOf(u, DescriptionField);
  }

  /** Selecting a product is the same as editing the task's name, then its reference. */
  lemma SelectionIsTwoFieldEdits(p: Project, id: string, product: Product)
    ensures WithProductSelected(p, id, product)
      == WithTaskField(WithTaskField(p, id, NameField, product.name), id, ReferenceField, product.reference)
  {
    var r := WithProductSelected(p, id, product);
    var q := WithTaskField(p, id, NameField, product.name);
    var s := WithTaskField(q, id, ReferenceField, product.reference);
    assert |r.tasks| == |s.tasks|;
    forall i | 0 <= i < |r.tasks|
      ensures r.tasks[i] == s.tasks[i]
    {
      assert q.tasks[i].id == p.tasks[i].id by {
        assert FieldOf(q.tasks[i], IdField) == FieldOf(p.tasks[i], IdField);
      }
      forall g
        ensures FieldOf(r.tasks[i], g) == FieldOf(s.tasks[i], g)
      {
      }
      TaskExtensionality(r.tasks[i], s.tasks[i]);
    }
  }

  /** An updated field is seen in every task with the id, and updating twice keeps the last value. */
  lemma UpdateTaskLastWriteWins(p: Project, id: string, f: TaskField, v: string, w: string)
    requires f != IdField
    ensures WithTaskField(WithTaskField(p, id, f, v), id, f, w) == WithTaskField(p, id, f, w)
  {
    var q := WithTaskField(p, id, f, v);
    var r := WithTaskField(q, id, f, w);
    var s := WithTaskField(p, id, f, w);
    forall i | 0 <= i < |p.tasks|
      ensures r.tasks[i] == s.tasks[i]
    {
      assert q.tasks[i].id == p.tasks[i].id by {
        assert FieldOf(q.tasks[i], IdField) == FieldOf(p.tasks[i], IdField);
      }
      forall g
        ensures FieldOf(r.tasks[i], g) == FieldOf(s.tasks[i], g)
      {
      }
      TaskExtensionality(r.tasks[i], s.tasks[i]);
    }
  }

  /** Removing a task keeps the remaining tasks in their order. */
  lemma RemoveTaskKeepsOrder(p: Project, id: string)
    ensures IsSubsequence(WithoutTask(p, id).tasks, p.tasks)
  {
    RemoveKeyIsSubsequence(p.tasks, TaskId, id);
  }

  /** A blank task is never matched, so adding one leaves the validated count as it was. */
  lemma AddedTaskIsUnmatched(p: Project, id: string, catalog: seq<Product>)
    ensures GetMatch(WithTaskAdded(p, id).tasks[|p.tasks|], catalog) == None
    ensures MatchedTasksCount(WithTaskAdded(p, id).tasks, catalog) == MatchedTasksCount(p.tasks, catalog)
  {
    BlankTaskNeverCounts(p.tasks, catalog, id);
  }

  /** After picking a catalog product for a task, that task is matched. */
  lemma SelectedTaskIsMatched(p: Project, id: string, catalog: seq<Product>, k: nat, i: nat)
    requires k < |catalog| && (catalog[k].reference != "" || catalog[k].name != "")
    requires i < |p.tasks| && p.tasks[i].id == id
    ensures GetMatch(WithProductSelected(p, id, catalog[k]).tasks[i], catalog).Some?
  {
    var r := WithProductSelected(p, id, catalog[k]);
    var t := p.tasks[i];
    assert FieldOf(r.tasks[i], IdField) == FieldOf(t, IdField);
    assert FieldOf(r.tasks[i], LocationField) == FieldOf(t, LocationField);
    assert FieldOf(r.tasks[i], DescriptionField) == FieldOf(t, DescriptionField);
    assert r.tasks[i] == t.(name := catalog[k].name, reference := catalog[k].reference);
    SelectedProductIsMatched(t, catalog, k);
  }

  /** The validated count after an import is the old count plus that of the new tasks: importing never unmatches a task. */
  lemma ImportAddsToMatchedCount(p: Project, newTasks: seq<ProjectTask>, catalog: seq<Product>)
    ensures MatchedTasksCount(WithTasksAppended(p, newTasks).tasks, catalog)
      == MatchedTasksCount(p.tasks, catalog) + MatchedTasksCount(newTasks, catalog)
  {
    assert WithTasksAppended(p, newTasks).tasks == p.tasks + newTasks;
    FilterAppend(p.tasks, newTasks, IsMatchedIn(catalog));
  }
}
