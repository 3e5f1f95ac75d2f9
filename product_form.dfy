/** The product form used to add a product to the catalog or to edit one. */
module ProductFormScreen {
  import opened Base
  import opened Types
  import opened KeyedList

  const EmptyProduct: Product := Product("", "", "", "")

  /** `handleSubmit`'s check: a reference and a name are required; spaces are not trimmed away. */
  predicate CanSubmit(p: Product)
  {
    p.reference != "" && p.name != ""
  }

  class ProductForm {
    const initialData: Option<Product>
    var formData: Product

    /** Editing an existing product never changes its reference. */
    ghost predicate Valid()
      reads this
    {
      initialData.Some? ==> formData.reference == initialData.value.reference
    }

    /** The reference input is disabled when a product is being edited. */
    predicate ReferenceLocked()
    {
      initialData.Some?
    }

    /** The form starts empty, then takes `initialData` when there is one. */
    constructor(initialData: Option<Product>)
      ensures Valid() && this.initialData == initialData
      ensures formData == initialData.GetOr(EmptyProduct)
    {
      this.initialData := initialData;
      formData := initialData.GetOr(EmptyProduct);
    }

    /** Typing a reference; only possible while the input is enabled. */
    method EditReference(value: string)
      requires Valid() && !ReferenceLocked()
      modifies this
      ensures Valid() && formData == old(formData).(reference := value)
    {
      formData := formData.(reference := value);
    }

    method EditName(value: string)
      requires Valid()
      modifies this
      ensures Valid() && formData == old(formData).(name := value)
    {
      formData := formData.(name := value);
    }

    method EditUrl(value: string)
      requires Valid()
      modifies this
      ensures Valid() && formData == old(formData).(url := value)
    {
      formData := formData.(url := value);
    }

    /** `handleFileChange`, with the file already read as a data URL. */
    method SetImage(dataUrl: string)
      requires Valid()
      modifies this
      ensures Valid() && formData == old(formData).(imageDisplay := dataUrl)
    {
      formData := formData.(imageDisplay := dataUrl);
    }

    /**
     * A submit of the form: the product handed to `onSave`, if any, and
     * whether the form closes. `urlAccepted` is the browser's own check of
     * the `type="url"` input, which runs before the submit event: when it
     * fails, `handleSubmit` never runs. Otherwise `handleSubmit`'s check
     * decides.
     */
    method Submit(urlAccepted: bool) returns (saved: Option<Product>, closes: bool)
      ensures saved.Some? <==> urlAccepted && CanSubmit(formData)
      ensures saved.Some? ==> saved.value == formData
      ensures closes <==> saved.Some?
    {
      if !urlAccepted || !CanSubmit(formData) {
        return None, false;
      }
      return Some(formData), true;
    }
  }

  /** Saving an edited product, whose reference is locked, replaces the catalog entry instead of adding one. */
  lemma EditedProductReplaces(catalog: seq<Product>, original: Product, edited: Product)
    requires original in catalog && edited.reference == original.reference
    ensures |Upsert(catalog, ProductReference, edited)| == |catalog|
    ensures edited in Upsert(catalog, ProductReference, edited)
  {
    var i :| 0 <= i < |catalog| && catalog[i] == original;
    assert ProductReference(catalog[i]) == ProductReference(edited);
    UpsertThenFind(catalog, ProductReference, edited);
  }
}
