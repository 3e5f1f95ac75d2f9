/** The projects screen: the list of project cards, project creation and deletion. */
module ProjectListScreen {
  import opened Base
  import opened Types
  import opened Text
  import opened KeyedList
  import opened LocalStore
  import opened StorageService
  import opened ProjectEdits

  /** A new project: the name as typed, no photo, no tasks, no generated images. */
  function NewProject(id: string, name: string, createdAt: string): (p: Project)
    ensures p.id == id && p.name == name && p.createdAt == createdAt
    ensures |p.tasks| == 0 && |p.generatedImages| == 0
    ensures Thumbnail(p) == Placeholder
  {
    Project(id, name, createdAt, None, [], [])
  }

  /** `newProjectName.trim()` is truthy. */
  predicate NameAccepted(name: string)
  {
    Trim(name) != ""
  }

  /** What a project card shows: an image source (which may be null) or the placeholder icon. */
  datatype CardImage = ImageSource(src: Option<string>) | Placeholder

  /** The card image: the last generated image if it is non-empty, else the site photo; the placeholder when there is neither. */
  function Thumbnail(p: Project): (r: CardImage)
    ensures |p.generatedImages| > 0 && p.generatedImages[|p.generatedImages| - 1] != "" ==>
      r == ImageSource(Some(p.generatedImages[|p.generatedImages| - 1]))
    ensures (|p.generatedImages| == 0 || p.generatedImages[|p.generatedImages| - 1] == "") && Truthy(p.sitePhoto) ==>
      r == ImageSource(p.sitePhoto)
    ensures r == Placeholder <==> |p.generatedImages| == 0 && !Truthy(p.sitePhoto)
  {
    if Truthy(p.sitePhoto) || |p.generatedImages| > 0 then
      var last := if |p.generatedImages| > 0 then p.generatedImages[|p.generatedImages| - 1] else "";
      if last != "" then ImageSource(Some(last)) else ImageSource(p.sitePhoto)
    else
      Placeholder
  }

  /** Once an image has been generated, the card shows it. */
  lemma CardShowsLatestRender(p: Project, image: string)
    requires image != ""
    ensures Thumbnail(WithImageAppended(p, image)) == ImageSource(Some(image))
  {
  }

  /** The effect of a creation: the project is upserted into the store and appended to the shown list. */
  ghost predicate Created(shownBefore: seq<Project>, before: map<string, Entry>,
                          shownAfter: seq<Project>, after: map<string, Entry>, created: Project)
  {
    && WellFormed(before)
    && shownAfter == shownBefore + [created]
    && after == before[ProjectsKey := ProjectsEntry(Upsert(StoredProjects(before), ProjectId, created))]
  }

  class ProjectList {
    const store: BrowserStore
    var projects: seq<Project>
    var isCreating: bool
    var newProjectName: string

    /** Mounting the screen loads the stored projects. */
    constructor(store: BrowserStore)
      requires WellFormed(store.items)
      ensures this.store == store && projects == StoredProjects(store.items)
      ensures !isCreating && newProjectName == ""
    {
      this.store := store;
      new;
      projects := GetProjects(store);
      isCreating := false;
      newProjectName := "";
    }

    /**
     * `handleCreateProject`, with the generated id and the formatted date as
     * inputs. Returns the id passed on to `onSelectProject`, if any.
     */
    method HandleCreateProject(id: string, createdAt: string) returns (selected: Option<string>)
      requires WellFormed(store.items)
      modifies this, store
      ensures WellFormed(store.items)
      ensures !NameAccepted(old(newProjectName)) ==>
        && selected == None && projects == old(projects) && store.items == old(store.items)
        && newProjectName == old(newProjectName) && isCreating == old(isCreating)
      ensures NameAccepted(old(newProjectName)) ==>
        && selected == Some(id)
        && Created(old(projects), old(store.items), projects, store.items, NewProject(id, old(newProjectName), createdAt))
        && newProjectName == "" && !isCreating
    {
      selected := None;
      if !NameAccepted(newProjectName) {
        return;
      }
      AddProject(NewProject(id, newProjectName, createdAt));
      newProjectName := "";
      isCreating := false;
      selected := Some(id);
    }

    /** The new project is saved, then appended to the shown list. */
    method AddProject(created: Project)
      requires WellFormed(store.items)
      modifies this, store
      ensures WellFormed(store.items)
      ensures Created(old(projects), old(store.items), projects, store.items, created)
      ensures newProjectName == old(newProjectName) && isCreating == old(isCreating)
    {
      SaveProject(store, created);
      projects := projects + [created];
    }

    /** `handleDeleteProject`: only after the user confirms, from storage and from the list. */
    method HandleDeleteProject(id: string, confirmed: bool)
      requires WellFormed(store.items)
      modifies this, store
      ensures confirmed ==>
        && projects == RemoveKey(old(projects), ProjectId, id)
        && store.items == old(store.items)[ProjectsKey := ProjectsEntry(RemoveKey(old(StoredProjects(store.items)), ProjectId, id))]
      ensures !confirmed ==> projects == old(projects) && store.items == old(store.items)
      ensures WellFormed(store.items)
      ensures isCreating == old(isCreating) && newProjectName == old(newProjectName)
    {
      if confirmed {
        DeleteProject(store, id);
        projects := RemoveKey(projects, ProjectId, id);
      }
    }
  }
}
