/** The catalog screen: the loaded products, a search box, and the product form for adding or editing. */
module InventoryScreen {
  import opened Base
  import opened Types
  import opened Text
  import opened Seqs
  import opened KeyedList
  import opened LocalStore
  import opened StorageService
  import opened Reconciliation

  /** The search keeps a product whose name or reference contains the term, ignoring case. */
  predicate MatchesSearch(term: string, p: Product)
  {
    Contains(ToLower(p.name), ToLower(term)) || Contains(ToLower(p.reference), ToLower(term))
  }

  function SearchFor(term: string): Product -> bool
  {
    p => MatchesSearch(term, p)
  }

  /** `filteredProducts`; the "ARTICLES" counter is its length. */
  function FilteredProducts(products: seq<Product>, term: string): (shown: seq<Product>)
    ensures |shown| <= |products|
    ensures forall i :: 0 <= i < |shown| ==> MatchesSearch(term, shown[i])
  {
    Filter(products, SearchFor(term))
  }

  /** A product is listed exactly when it is loaded and matches the search. */
  lemma ListedIffMatches(products: seq<Product>, term: string, p: Product)
    ensures p in FilteredProducts(products, term) <==> p in products && MatchesSearch(term, p)
  {
    FilterMembership(products, SearchFor(term), p);
  }

  /** An empty search lists every product. */
  lemma EmptySearchListsAll(products: seq<Product>)
    ensures FilteredProducts(products, "") == products
  {
    forall p: Product ensures MatchesSearch("", p) {
      ContainsEmpty(ToLower(p.name));
    }
    FilterKeepsAll(products, SearchFor(""));
  }

  /** The listed products keep their catalog order. */
  lemma FilterKeepsOrder(products: seq<Product>, term: string)
    ensures IsSubsequence(FilteredProducts(products, term), products)
  {
    FilterIsSubsequence(products, SearchFor(term));
  }

  /** The matcher's product drop-down is this same search, applied to the task name. */
  lemma DropdownIsCatalogSearch(catalog: seq<Product>, taskName: string)
    ensures DropdownOptions(catalog, taskName) == FilteredProducts(catalog, taskName)
  {
    forall p: Product ensures OfferedFor(taskName)(p) == SearchFor(taskName)(p) {
      if taskName == "" {
        ContainsEmpty(ToLower(p.name));
      }
    }
    FilterAgreeing(catalog, OfferedFor(taskName), SearchFor(taskName));
  }

  class Inventory {
    const store: BrowserStore
    var products: seq<Product>
    var isFormOpen: bool
    var editingProduct: Option<Product>
    var searchTerm: string

    /** The list shown is the stored catalog. */
    ghost predicate Synced()
      reads this, store
    {
      WellFormed(store.items) && products == StoredProducts(store.items)
    }

    /** The shown rows. */
    function Shown(): seq<Product>
      reads this
    {
      FilteredProducts(products, searchTerm)
    }

    /** Mounting the screen loads the catalog (`useEffect` → `loadProducts`). */
    constructor(store: BrowserStore)
      requires WellFormed(store.items)
      modifies store
      ensures this.store == store && Synced()
      ensures products == old(StoredProducts(store.items))
      ensures store.items == if ProductsKey in old(store.items) then old(store.items)
                             else old(store.items)[ProductsKey := ProductsEntry(InitialProducts)]
      ensures !isFormOpen && editingProduct == None && searchTerm == ""
    {
      this.store := store;
      new;
      products := GetProducts(store);
      isFormOpen := false;
      editingProduct := None;
      searchTerm := "";
    }

    /** `loadProducts`. */
    method LoadProducts()
      requires WellFormed(store.items)
      modifies this, store
      ensures Synced() && products == old(StoredProducts(store.items))
      ensures store.items == if ProductsKey in old(store.items) then old(store.items)
                             else old(store.items)[ProductsKey := ProductsEntry(InitialProducts)]
      ensures isFormOpen == old(isFormOpen) && editingProduct == old(editingProduct) && searchTerm == old(searchTerm)
    {
      products := GetProducts(store);
    }

    /** Typing in the search box. */
    method SetSearchTerm(term: string)
      modifies this
      ensures searchTerm == term && products == old(products)
      ensures isFormOpen == old(isFormOpen) && editingProduct == old(editingProduct)
    {
      searchTerm := term;
    }

    /** "Nouveau Produit": an empty form. */
    method OpenNew()
      modifies this
      ensures isFormOpen && editingProduct == None
      ensures products == old(products) && searchTerm == old(searchTerm)
    {
      editingProduct := None;
      isFormOpen := true;
    }

    /** The edit button of a row: the form starts from that product. */
    method OpenEdit(p: Product)
      modifies this
      ensures isFormOpen && editingProduct == Some(p)
      ensures products == old(products) && searchTerm == old(searchTerm)
    {
      editingProduct := Some(p);
      isFormOpen := true;
    }

    /** The form's close. */
    method CloseForm()
      modifies this
      ensures !isFormOpen && editingProduct == None
      ensures products == old(products) && searchTerm == old(searchTerm)
    {
      isFormOpen := false;
      editingProduct := None;
    }

    /** `handleSave`: persist, reload, close the form and forget the edited product. */
    method HandleSave(product: Product)
      requires WellFormed(store.items)
      modifies this, store
      ensures Synced()
      ensures products == Upsert(old(StoredProducts(store.items)), ProductReference, product)
      ensures FindByKey(products, ProductReference, product.reference) == Some(product)
      ensures store.items == old(store.items)[ProductsKey := ProductsEntry(products)]
      ensures !isFormOpen && editingProduct == None && searchTerm == old(searchTerm)
    {
      SaveProduct(store, product);
      LoadProducts();
      isFormOpen := false;
      editingProduct := None;
    }

    /** `handleDelete`: only after the user confirms, delete and reload. */
    method HandleDelete(reference: string, confirmed: bool)
      requires Synced()
      modifies this, store
      ensures Synced()
      ensures confirmed ==> products == RemoveKey(old(products), ProductReference, reference)
      ensures confirmed ==> store.items == old(store.items)[ProductsKey := ProductsEntry(products)]
      ensures !confirmed ==> products == old(products) && store.items == old(store.items)
      ensures isFormOpen == old(isFormOpen) && editingProduct == old(editingProduct) && searchTerm == old(searchTerm)
    {
      if confirmed {
        DeleteProduct(store, reference);
        LoadProducts();
      }
    }
  }

  /** After a confirmed delete, no listed product has the deleted reference. */
  lemma DeletedProductNotListed(products: seq<Product>, reference: string, term: string, p: Product)
    requires p in FilteredProducts(RemoveKey(products, ProductReference, reference), term)
    ensures p.reference != reference && p in products
  {
    ListedIffMatches(RemoveKey(products, ProductReference, reference), term, p);
    RemoveKeyMembership(products, ProductReference, reference, p);
  }
}
