/**
 * The matcher screen of one project: the project and the catalog it shows,
 * the text typed for extraction and the last generated image. Every edit
 * replaces the whole project and saves it (`saveState`).
 */
module MatcherSession {
  import opened Base
  import opened Types
  import opened Text
  import opened KeyedList
  import opened LocalStore
  import opened StorageService
  import opened Reconciliation
  import opened SheetImport
  import opened ProjectEdits
  import opened Gemini

  /** The store after `project` has been saved into `before`. */
  ghost predicate Persisted(before: map<string, Entry>, after: map<string, Entry>, project: Project)
  {
    WellFormed(before) && after == before[ProjectsKey := ProjectsEntry(Upsert(StoredProjects(before), ProjectId, project))]
  }

  /**
   * The visualization attempt of `handleGenerateVisualization`, before
   * anything is shown or saved. Without a site photo or without a validated
   * match nothing is requested; otherwise the validated matches go to the
   * service and its image, if any, comes back.
   */
  method RequestVisualization(project: Project, catalog: seq<Product>, apiKey: string, call: Outcome<GenerateResponse>)
    returns (request: Option<seq<RequestPart>>, image: Option<string>, error: Option<ServiceError>)
    ensures !Truthy(project.sitePhoto) || MatchedTasksCount(project.tasks, catalog) == 0 ==>
      request == None && image == None && error == None
    ensures Truthy(project.sitePhoto) && MatchedTasksCount(project.tasks, catalog) > 0 && apiKey != "" ==>
      var vm := ValidMatches(project.tasks, catalog);
      && request == Some(BuildRequest(project.sitePhoto.value, ProductsOf(vm), TasksOf(vm)))
      && image == (if call.Responded? then FirstImage(ResponseParts(call.response)) else None)
    ensures error.Some? <==>
      && Truthy(project.sitePhoto) && MatchedTasksCount(project.tasks, catalog) > 0
      && (apiKey == "" || (call.Threw? && IsKeyError(call.message)))
    ensures error.Some? ==> image.None?
  {
    request, image, error := None, None, None;
    if !Truthy(project.sitePhoto) {
      return;
    }
    var matches := ValidMatches(project.tasks, catalog);
    ValidMatchesCount(project.tasks, catalog);
    if |matches| == 0 {
      return;
    }
    var r;
    request, r := Gemini.GenerateVisualization(apiKey, project.sitePhoto.value, ProductsOf(matches), TasksOf(matches), call);
    if r.Err? {
      error := Some(r.error);
    } else {
      image := r.value;
    }
  }

  class ProjectMatcher {
    const store: BrowserStore
    var project: Project
    var catalog: seq<Product>
    var importText: string
    var visualization: Option<string>

    /** The project on screen is the one stored under its id. */
    ghost predicate Valid()
      reads this, store
    {
      && WellFormed(store.items)
      && FindByKey(StoredProjects(store.items), ProjectId, project.id) == Some(project)
    }

    constructor(store: BrowserStore, project: Project, catalog: seq<Product>)
      requires WellFormed(store.items)
      requires FindByKey(StoredProjects(store.items), ProjectId, project.id) == Some(project)
      ensures Valid()
      ensures this.store == store && this.project == project && this.catalog == catalog
      ensures importText == "" && visualization == None
    {
      this.store := store;
      this.project := project;
      this.catalog := catalog;
      importText := "";
      visualization := None;
    }

    /** `saveState`: show the new project and persist it. */
    method SaveState(updated: Project)
      requires WellFormed(store.items)
      modifies this, store
      ensures project == updated
      ensures Persisted(old(store.items), store.items, updated)
      ensures Valid()
      ensures catalog == old(catalog) && importText == old(importText) && visualization == old(visualization)
    {
      project := updated;
      SaveProject(store, updated);
    }

    /** `addTask`. */
    method AddTask(id: string)
      requires Valid()
      modifies this, store
      ensures Valid() && project == WithTaskAdded(old(project), id)
      ensures Persisted(old(store.items), store.items, project)
      ensures catalog == old(catalog) && importText == old(importText) && visualization == old(visualization)
    {
      SaveState(WithTaskAdded(project, id));
    }

    /** `removeTask`. */
    method RemoveTask(id: string)
      requires Valid()
      modifies this, store
      ensures Valid() && project == WithoutTask(old(project), id)
      ensures Persisted(old(store.items), store.items, project)
      ensures catalog == old(catalog) && importText == old(importText) && visualization == old(visualization)
    {
      SaveState(WithoutTask(project, id));
    }

    /** `updateTask`. */
    method UpdateTask(id: string, field: TaskField, value: string)
      requires Valid()
      modifies this, store
      ensures Valid() && project == WithTaskField(old(project), id, field, value)
      ensures Persisted(old(store.items), store.items, project)
      ensures catalog == old(catalog) && importText == old(importText) && visualization == old(visualization)
    {
      SaveState(WithTaskField(project, id, field, value));
    }

    /** `selectProductForTask`. */
    method SelectProductForTask(id: string, product: Product)
      requires Valid()
      modifies this, store
      ensures Valid() && project == WithProductSelected(old(project), id, product)
      ensures Persisted(old(store.items), store.items, project)
      ensures catalog == old(catalog) && importText == old(importText) && visualization == old(visualization)
    {
      SaveState(WithProductSelected(project, id, product));
    }

    /** `handlePhotoUpload`, with the file already read as a data URL. */
    method UploadSitePhoto(dataUrl: string)
      requires Valid()
      modifies this, store
      ensures Valid() && project == old(project).(sitePhoto := Some(dataUrl))
      ensures Persisted(old(store.items), store.items, project)
      ensures catalog == old(catalog) && importText == old(importText) && visualization == old(visualization)
    {
      SaveState(project.(sitePhoto := Some(dataUrl)));
    }

    /** The close button on the site photo. */
    method ClearSitePhoto()
      requires Valid()
      modifies this, store
      ensures Valid() && project == old(project).(sitePhoto := None)
      ensures Persisted(old(store.items), store.items, project)
      ensures catalog == old(catalog) && importText == old(importText) && visualization == old(visualization)
    {
      SaveState(project.(sitePhoto := None));
    }

    /**
     * `handleImport`: blank text does nothing; otherwise the extraction runs
     * and a non-empty result is appended and the text cleared. `error` is
     * the service error the screen reports, if any.
     */
    method ImportQuote(apiKey: string, call: Outcome<ExtractionBody>, ids: nat -> string)
      returns (error: Option<ServiceError>)
      requires Valid()
      modifies this, store
      ensures Valid()
      ensures catalog == old(catalog) && visualization == old(visualization)
      ensures Trim(old(importText)) == "" ==> error == None
      ensures var r := ParseQuoteToTasks(apiKey, call);
        if Trim(old(importText)) != "" && r.Ok? && r.value != [] then
          && project == WithTasksAppended(old(project), TasksFromExtraction(r.value, ids))
          && Persisted(old(store.items), store.items, project)
          && importText == "" && error == None
        else
          && project == old(project) && store.items == old(store.items) && importText == old(importText)
          && (Trim(old(importText)) != "" ==> error == if r.Err? then Some(r.error) else None)
    {
      error := None;
      if Trim(importText) == "" {
        return;
      }
      var r := ParseQuoteToTasks(apiKey, call);
      if r.Err? {
        error := Some(r.error);
        return;
      }
      if r.value == [] {
        return;
      }
      var shown := project;
      var added := TasksFromExtraction(r.value, ids);
      SaveState(WithTasksAppended(shown, added));
      importText := "";
    }

    /** `handleExcelImport`, from the sheet's cells: appends the rows with content, or reports why nothing was. */
    method ImportSheet(data: seq<seq<Cell>>, ids: nat -> string) returns (outcome: Result<nat, SheetError>)
      requires Valid()
      modifies this, store
      ensures Valid()
      ensures catalog == old(catalog) && importText == old(importText) && visualization == old(visualization)
      ensures var r := ParseSheet(data, ids);
        match r
        case Ok(tasks) =>
          && outcome == Ok(|tasks|)
          && project == WithTasksAppended(old(project), tasks)
          && Persisted(old(store.items), store.items, project)
        case Err(e) =>
          && outcome == Err(e)
          && project == old(project) && store.items == old(store.items)
    {
      var r := ParseSheet(data, ids);
      if r.Ok? {
        SaveState(WithTasksAppended(project, r.value));
        outcome := Ok(|r.value|);
      } else {
        outcome := Err(r.error);
      }
    }

    /**
     * `handleGenerateVisualization`: the attempt is `RequestVisualization` on
     * the project on screen; a returned image is shown and appended to the
     * project, which is saved.
     */
    method GenerateVisualization(apiKey: string, call: Outcome<GenerateResponse>)
      returns (request: Option<seq<RequestPart>>, image: Option<string>, error: Option<ServiceError>)
      requires Valid()
      modifies this, store
      ensures Valid()
      ensures catalog == old(catalog) && importText == old(importText)
      ensures !Truthy(old(project).sitePhoto) || MatchedTasksCount(old(project).tasks, catalog) == 0 ==>
        request == None && image == None && error == None
      ensures Truthy(old(project).sitePhoto) && MatchedTasksCount(old(project).tasks, catalog) > 0 && apiKey != "" ==>
        var vm := ValidMatches(old(project).tasks, catalog);
        && request == Some(BuildRequest(old(project).sitePhoto.value, ProductsOf(vm), TasksOf(vm)))
        && image == (if call.Responded? then FirstImage(ResponseParts(call.response)) else None)
      ensures error.Some? <==>
        && Truthy(old(project).sitePhoto) && MatchedTasksCount(old(project).tasks, catalog) > 0
        && (apiKey == "" || (call.Threw? && IsKeyError(call.message)))
      ensures image.Some? ==>
        && visualization == image
        && project == WithImageAppended(old(project), image.value)
        && Persisted(old(store.items), store.items, project)
      ensures image.None? ==>
        project == old(project) && store.items == old(store.items) && visualization == old(visualization)
    {
      var shown := project;
      request, image, error := RequestVisualization(shown, catalog, apiKey, call);
      if image.Some? {
        visualization := image;
        SaveState(WithImageAppended(shown, image.value));
      }
    }
  }

  /**
   * The screen's start: the project with that id and the catalog (seeded on
   * first use). Nothing is shown when no project has the id.
   */
  method OpenMatcher(store: BrowserStore, projectId: string) returns (m: Option<ProjectMatcher>)
    requires WellFormed(store.items)
    modifies store
    ensures m.None? <==> FindByKey(old(StoredProjects(store.items)), ProjectId, projectId).None?
    ensures m.Some? ==>
      && fresh(m.value) && m.value.Valid() && m.value.store == store
      && Some(m.value.project) == FindByKey(old(StoredProjects(store.items)), ProjectId, projectId)
      && m.value.catalog == old(StoredProducts(store.items))
    ensures store.items == if ProductsKey in old(store.items) then old(store.items)
                           else old(store.items)[ProductsKey := ProductsEntry(InitialProducts)]
  {
    var p := GetProject(store, projectId);
    ghost var before := store.items;
    var products := GetProducts(store);
    KeysAreSeparate(before, InitialProducts, []);
    assert StoredProjects(store.items) == StoredProjects(before);
    if p.None? {
      return None;
    }
    assert p.value.id == projectId;
    var matcher := new ProjectMatcher(store, p.value, products);
    m := Some(matcher);
  }
}
