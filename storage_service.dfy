/**
 * The persistence gateway: two keyed lists, the catalog (keyed by product
 * reference) and the projects (keyed by project id), each kept under one key
 * of the browser store. Every save reads the whole list, replaces or appends
 * one entry and writes the whole list back.
 */
module StorageService {
  import opened Base
  import opened Types
  import opened KeyedList
  import opened LocalStore

  const ProductsKey: string := "terramatch_products"
  const ProjectsKey: string := "terramatch_projects"

  /** The catalog seeded on first use. */
  const InitialProducts: seq<Product> := [
    Product(
      "P2AA11489",
      "Panneau Bois Arifi Pin, Saturé Doré, L. 1,80 m x h. 1,80 m x ep. 75 mm",
      "https://www.vivreenbois.com/produit/panneau-bois-arifi-pin-sature-dore-l-180-m-x-h-180-m-x-ep-75-mm",
      "https://images.unsplash.com/photo-1585790050230-5dd28404ccb9?auto=format&fit=crop&q=80&w=400"),
    Product(
      "730510168",
      "Panneau de décor Aluminium Tokyo, Gris Anthracite, L. 1.855 m x l. 920 mm x ep. 23 mm",
      "https://www.vivreenbois.com/produit/panneau-de-decor-aluminium-tokyo-gris-anthracite-l-1855-m-x-l-920-mm-x-ep-23-mm",
      "https://images.unsplash.com/photo-1620625515032-654e71b12041?auto=format&fit=crop&q=80&w=400")
  ]

  /** The two keys of the gateway hold the list shapes written to them. */
  ghost predicate WellFormed(items: map<string, Entry>)
  {
    && (ProductsKey in items ==> items[ProductsKey].ProductsEntry?)
    && (ProjectsKey in items ==> items[ProjectsKey].ProjectsEntry?)
  }

  /** The catalog as `getProducts` sees it: the stored list, or the seed when the key is absent. */
  ghost function StoredProducts(items: map<string, Entry>): seq<Product>
    requires WellFormed(items)
  {
    if ProductsKey in items then items[ProductsKey].products else InitialProducts
  }

  /** The projects as `getProjects` sees them: the stored list, or none. */
  ghost function StoredProjects(items: map<string, Entry>): seq<Project>
    requires WellFormed(items)
  {
    if ProjectsKey in items then items[ProjectsKey].projects else []
  }

  /** References are unique in the catalog and ids unique among the projects. */
  ghost predicate UniqueIdentities(items: map<string, Entry>)
  {
    && WellFormed(items)
    && UniqueKeys(StoredProducts(items), ProductReference)
    && UniqueKeys(StoredProjects(items), ProjectId)
  }

  /** The seed catalog has distinct references. */
  lemma InitialProductsUnique()
    ensures UniqueKeys(InitialProducts, ProductReference)
  {
    assert InitialProducts[0].reference[0] != InitialProducts[1].reference[0];
  }

  /** `getProducts`: the stored catalog; on first use the seed is stored and returned. */
  method GetProducts(store: BrowserStore) returns (products: seq<Product>)
    requires WellFormed(store.items)
    modifies store
    ensures products == old(StoredProducts(store.items))
    ensures store.items == if ProductsKey in old(store.items) then old(store.items)
                           else old(store.items)[ProductsKey := ProductsEntry(InitialProducts)]
    ensures WellFormed(store.items) && StoredProducts(store.items) == products
    ensures old(UniqueIdentities(store.items)) ==> UniqueIdentities(store.items)
  {
    var data := store.GetItem(ProductsKey);
    if data.None? {
      store.SetItem(ProductsKey, ProductsEntry(InitialProducts));
      return InitialProducts;
    }
    return data.value.products;
  }

  /** `saveProduct`: replace the product with the same reference in place, or append it. */
  method SaveProduct(store: BrowserStore, product: Product)
    requires WellFormed(store.items)
    modifies store
    ensures store.items == old(store.items)[ProductsKey :=
      ProductsEntry(Upsert(old(StoredProducts(store.items)), ProductReference, product))]
    ensures WellFormed(store.items)
    ensures FindByKey(StoredProducts(store.items), ProductReference, product.reference) == Some(product)
    ensures old(UniqueIdentities(store.items)) ==> UniqueIdentities(store.items)
  {
    ghost var items := store.items;
    var products := GetProducts(store);
    ghost var seeded := store.items;
    var index := IndexOfKey(products, ProductReference, product.reference);
    if index > -1 {
      products := products[index := product];
    } else {
      products := products + [product];
    }
    assert products == Upsert(StoredProducts(items), ProductReference, product);
    store.SetItem(ProductsKey, ProductsEntry(products));
    OverwriteKey(items, seeded, ProductsKey, ProductsEntry(InitialProducts), ProductsEntry(products));
    SavedProductsFacts(items, product, store.items);
  }

  /** Writing a key a second time hides the first write. */
  lemma OverwriteKey(items: map<string, Entry>, mid: map<string, Entry>, k: string, first: Entry, second: Entry)
    requires mid == items || mid == items[k := first]
    ensures mid[k := second] == items[k := second]
  {
  }

  /** What a product save does to the stored lists. */
  lemma SavedProductsFacts(items: map<string, Entry>, product: Product, after: map<string, Entry>)
    requires WellFormed(items)
    requires after == items[ProductsKey := ProductsEntry(Upsert(StoredProducts(items), ProductReference, product))]
    ensures WellFormed(after)
    ensures FindByKey(StoredProducts(after), ProductReference, product.reference) == Some(product)
    ensures UniqueIdentities(items) ==> UniqueIdentities(after)
  {
    UpsertThenFind(StoredProducts(items), ProductReference, product);
    if UniqueIdentities(items) {
      UpsertKeepsUnique(StoredProducts(items), ProductReference, product);
    }
  }

  /** `deleteProduct`: keep, in order, every product whose reference differs. */
  method DeleteProduct(store: BrowserStore, reference: string)
    requires WellFormed(store.items)
    modifies store
    ensures store.items == old(store.items)[ProductsKey :=
      ProductsEntry(RemoveKey(old(StoredProducts(store.items)), ProductReference, reference))]
    ensures WellFormed(store.items)
    ensures old(UniqueIdentities(store.items)) ==> UniqueIdentities(store.items)
  {
    ghost var items := store.items;
    var products := GetProducts(store);
    ghost var seeded := store.items;
    var filtered := RemoveKey(products, ProductReference, reference);
    store.SetItem(ProductsKey, ProductsEntry(filtered));
    OverwriteKey(items, seeded, ProductsKey, ProductsEntry(InitialProducts), ProductsEntry(filtered));
    if UniqueIdentities(items) {
      RemoveKeepsUnique(StoredProducts(items), ProductReference, reference);
    }
  }

  /** `getProjects`: the stored projects, or none. */
  method GetProjects(store: BrowserStore) returns (projects: seq<Project>)
    requires WellFormed(store.items)
    ensures projects == StoredProjects(store.items)
  {
    var data := store.GetItem(ProjectsKey);
    projects := if data.Some? then data.value.projects else [];
  }

  /** `getProject`: the first stored project with that id, if any. */
  method GetProject(store: BrowserStore, id: string) returns (project: Option<Project>)
    requires WellFormed(store.items)
    ensures project == FindByKey(StoredProjects(store.items), ProjectId, id)
  {
    var projects := GetProjects(store);
    project := FindByKey(projects, ProjectId, id);
  }

  /** `saveProject`: replace the project with the same id in place, or append it. */
  method SaveProject(store: BrowserStore, project: Project)
    requires WellFormed(store.items)
    modifies store
    ensures store.items == old(store.items)[ProjectsKey :=
      ProjectsEntry(Upsert(old(StoredProjects(store.items)), ProjectId, project))]
    ensures WellFormed(store.items)
    ensures FindByKey(StoredProjects(store.items), ProjectId, project.id) == Some(project)
    ensures old(UniqueIdentities(store.items)) ==> UniqueIdentities(store.items)
  {
    var projects := GetProjects(store);
    var index := IndexOfKey(projects, ProjectId, project.id);
    if index > -1 {
      projects := projects[index := project];
    } else {
      projects := projects + [project];
    }
    store.SetItem(ProjectsKey, ProjectsEntry(projects));
    UpsertThenFind(old(StoredProjects(store.items)), ProjectId, project);
    if old(UniqueIdentities(store.items)) {
      UpsertKeepsUnique(old(StoredProjects(store.items)), ProjectId, project);
    }
  }

  /** `deleteProject`: keep, in order, every project whose id differs. */
  method DeleteProject(store: BrowserStore, id: string)
    requires WellFormed(store.items)
    modifies store
    ensures store.items == old(store.items)[ProjectsKey :=
      ProjectsEntry(RemoveKey(old(StoredProjects(store.items)), ProjectId, id))]
    ensures WellFormed(store.items)
    ensures FindByKey(StoredProjects(store.items), ProjectId, id) == None
    ensures old(UniqueIdentities(store.items)) ==> UniqueIdentities(store.items)
  {
    var projects := GetProjects(store);
    var filtered := RemoveKey(projects, ProjectId, id);
    store.SetItem(ProjectsKey, ProjectsEntry(filtered));
    if old(UniqueIdentities(store.items)) {
      RemoveKeepsUnique(old(StoredProjects(store.items)), ProjectId, id);
    }
  }

  /** Saving a project twice leaves the store as saving it once. */
  lemma SaveProjectIdempotent(items: map<string, Entry>, project: Project)
    requires WellFormed(items)
    ensures var once := items[ProjectsKey := ProjectsEntry(Upsert(StoredProjects(items), ProjectId, project))];
      && WellFormed(once)
      && once[ProjectsKey := ProjectsEntry(Upsert(StoredProjects(once), ProjectId, project))] == once
  {
    UpsertIdempotent(StoredProjects(items), ProjectId, project);
  }

  /** The two keys are distinct: writing the projects never touches the catalog, and the other way round. */
  lemma KeysAreSeparate(items: map<string, Entry>, products: seq<Product>, projects: seq<Project>)
    requires WellFormed(items)
    ensures var a := items[ProjectsKey := ProjectsEntry(projects)];
      WellFormed(a) && StoredProducts(a) == StoredProducts(items) && StoredProjects(a) == projects
    ensures var b := items[ProductsKey := ProductsEntry(products)];
      WellFormed(b) && StoredProjects(b) == StoredProjects(items) && StoredProducts(b) == products
  {
    assert ProductsKey[11..15] == "prod" && ProjectsKey[11..15] == "proj";
  }
}
