/** The records of the application: products, project tasks, projects, users and views. */
module Types {
  import opened Base

  /** A catalog product. Its identity is `reference`; `imageDisplay` is a data URL or a remote URL. */
  datatype Product = Product(reference: string, name: string, url: string, imageDisplay: string)

  /** One line of a quote, to be reconciled against the catalog. */
  datatype ProjectTask = ProjectTask(id: string, reference: string, name: string, location: string, description: string)

  /** A task as the quote extraction returns it (`Partial<ProjectTask>`): any field may be missing. */
  datatype PartialTask = PartialTask(
    reference: Option<string>,
    name: Option<string>,
    location: Option<string>,
    description: Option<string>)

  /** A client project: its tasks, an optional site photo and the history of generated images. */
  datatype Project = Project(
    id: string,
    name: string,
    createdAt: string,
    sitePhoto: Option<string>,
    tasks: seq<ProjectTask>,
    generatedImages: seq<string>)

  /** The signed-in operator. */
  datatype User = User(email: string, name: string)

  /** The three screens behind the sidebar. */
  datatype View = ProjectsView | MatcherView | InventoryView

  /** The keys of a task record (`keyof ProjectTask`). */
  datatype TaskField = IdField | ReferenceField | NameField | LocationField | DescriptionField

  /** The value of one field of a task. */
  function FieldOf(t: ProjectTask, f: TaskField): string
  {
    match f
    case IdField => t.id
    case ReferenceField => t.reference
    case NameField => t.name
    case LocationField => t.location
    case DescriptionField => t.description
  }

  /** `{ ...t, [f]: v }`. */
  function WithField(t: ProjectTask, f: TaskField, v: string): (u: ProjectTask)
    ensures FieldOf(u, f) == v
    ensures forall g :: g != f ==> FieldOf(u, g) == FieldOf(t, g)
  {
    match f
    case IdField => t.(id := v)
    case ReferenceField => t.(reference := v)
    case NameField => t.(name := v)
    case LocationField => t.(location := v)
    case DescriptionField => t.(description := v)
  }

  /** JavaScript truthiness of an optional string: present and non-empty. */
  predicate Truthy(s: Option<string>)
  {
    s.Some? && s.value != ""
  }

  function ProductReference(p: Product): string { p.reference }
  function ProjectId(p: Project): string { p.id }
  function TaskId(t: ProjectTask): string { t.id }
}
