/** The state the `Products` view owns and the handlers that change it. The
    view keeps its own copy of the list (`products`), seeded from the fetch
    hook; the create, update and delete requests are issued by the view and
    their outcomes are inputs here, and `window.confirm` is a boolean. */
module ProductsView {
  import opened JsValues
  import opened BookRecords
  import opened ProductsFilter
  import FetchBooksHook

  /** `formData`: the form draft. A text field is `None` when the key is not
      in the object at all; `stock` is `None` when it is "" or absent. */
  datatype Draft = Draft(
    name: Option<string>,
    author: Option<string>,
    stock: Option<int>,
    category: Option<string>,
    barcode: Option<string>,
    price: Option<string>)

  /** The draft `useState` starts from: name, stock, barcode and price all "". */
  function InitialDraft(): (d: Draft)
    ensures d.name == Some("") && d.stock.None?
    ensures d.barcode == Some("") && d.price == Some("")
    ensures d.author.None? && d.category.None?
  {
    Draft(Some(""), None, None, None, Some(""), Some(""))
  }

  /** The empty create draft: name, author, stock and category all "". */
  function BlankCreateDraft(): (d: Draft)
    ensures d.name == Some("") && d.author == Some("") && d.stock.None? && d.category == Some("")
    ensures d.barcode.None? && d.price.None?
  {
    Draft(Some(""), Some(""), None, Some(""), None, None)
  }

  /** The draft `handleEditClick` seeds from a row: name, author and stock,
      each falling back to "" when falsy (a stock of 0 included). */
  function EditDraft(b: Book): (d: Draft)
    ensures d.name == Some(b.name) && d.author == Some(b.author)
    ensures d.stock.Some? <==> b.stock.Some? && b.stock.value != 0
    ensures d.stock.Some? ==> d.stock == b.stock
    ensures d.category.None? && d.barcode.None? && d.price.None?
  {
    Draft(Some(b.name), Some(b.author),
          if b.stock.Some? && b.stock.value != 0 then b.stock else None,
          None, None, None)
  }

  /** The "Crear Libro" button is enabled: name, stock and category are all
      non-empty (`disabled={!formData.name || !formData.stock || !formData.category}`). */
  predicate CreateEnabled(d: Draft): (enabled: bool)
    ensures !enabled <==>
      || d.name.None? || d.name == Some("")
      || d.stock.None?
      || d.category.None? || d.category == Some("")
  {
    Truthy(d.name) && d.stock.Some? && Truthy(d.category)
  }

  /** The create button is disabled on a freshly opened create form, and on an
      edit draft, which never carries a category. */
  lemma CreateDisabledOnFreshDrafts(b: Book)
    ensures !CreateEnabled(BlankCreateDraft())
    ensures !CreateEnabled(InitialDraft())
    ensures !CreateEnabled(EditDraft(b))
  {
  }

  /** How a create or update request ended: the parsed body on success. */
  datatype Reply = Failed | Succeeded(body: Entry)

  class Products {
    var products: seq<Entry>
    var searchTerm: string
    var editingProduct: Option<Book>
    var showCreateForm: bool
    var formData: Draft

    /** The list the table shows. */
    function Filtered(): (r: seq<Entry>)
      reads this
      ensures IsSubsequence(r, products)
      ensures forall e :: e in r <==> e in products && Matches(e, searchTerm)
    {
      FilterKeepsOrder(products, searchTerm);
      FilterCounts(products, searchTerm);
      FilterProducts(products, searchTerm)
    }

    /** The initial values passed to `useState`. */
    constructor ()
      ensures products == [] && searchTerm == "" && editingProduct.None?
      ensures !showCreateForm && formData == InitialDraft()
    {
      products := [];
      searchTerm := "";
      editingProduct := None;
      showCreateForm := false;
      formData := InitialDraft();
    }

    /** The sync effect: once the hook reports `done`, copy its list (the
        hook's list is always an array, so it is always truthy). */
    method Sync(store: FetchBooksHook.BookStore)
      modifies this
      ensures products == (if store.done then store.books else old(products))
      ensures searchTerm == old(searchTerm) && editingProduct == old(editingProduct)
      ensures showCreateForm == old(showCreateForm) && formData == old(formData)
    {
      if store.done {
        products := store.books;
      }
    }

    /** `handleQuickSearch`, and the clear button with `term == ""`. */
    method SetSearchTerm(term: string)
      modifies this
      ensures searchTerm == term
      ensures products == old(products) && editingProduct == old(editingProduct)
      ensures showCreateForm == old(showCreateForm) && formData == old(formData)
    {
      searchTerm := term;
    }

    /** `handleEditClick(product)` on a table row. */
    method EditClick(product: Book)
      modifies this
      ensures editingProduct == Some(product)
      ensures formData == EditDraft(product)
      ensures products == old(products) && searchTerm == old(searchTerm)
      ensures showCreateForm == old(showCreateForm)
    {
      editingProduct := Some(product);
      formData := EditDraft(product);
    }

    /** The cancel button of an edited row: leave edit mode, no request. */
    method CancelEdit()
      modifies this
      ensures editingProduct.None?
      ensures products == old(products) && searchTerm == old(searchTerm)
      ensures showCreateForm == old(showCreateForm) && formData == old(formData)
    {
      editingProduct := None;
    }

    /** `handleCreateClick`: open the form with a blank draft, leaving edit mode. */
    method CreateClick()
      modifies this
      ensures showCreateForm && editingProduct.None?
      ensures formData == BlankCreateDraft()
      ensures products == old(products) && searchTerm == old(searchTerm)
    {
      showCreateForm := true;
      editingProduct := None;
      formData := BlankCreateDraft();
    }

    /** The close and cancel buttons of the create form; the draft is kept. */
    method CloseCreateForm()
      modifies this
      ensures !showCreateForm
      ensures products == old(products) && searchTerm == old(searchTerm)
      ensures editingProduct == old(editingProduct) && formData == old(formData)
    {
      showCreateForm := false;
    }

    /** `handleDeleteClick(product)`. The request is sent only when the user
        confirms; the record leaves the list only when the request succeeds
        and filtering the list does not throw on a `null` element (a throw is
        caught like a failed request). */
    method DeleteClick(product: Book, confirmed: bool, deleted: bool) returns (sent: bool)
      modifies this
      ensures sent == confirmed
      ensures confirmed && deleted && NoNulls(old(products)) ==>
                products == RemoveById(old(products), product.id)
      ensures !(confirmed && deleted && NoNulls(old(products))) ==> products == old(products)
      ensures searchTerm == old(searchTerm) && editingProduct == old(editingProduct)
      ensures showCreateForm == old(showCreateForm) && formData == old(formData)
    {
      sent := confirmed;
      if confirmed && deleted && NoNulls(products) {
        products := RemoveById(products, product.id);
      }
    }

    /** `handleUpdate`. Reading `editingProduct._id` when nothing is being
        edited throws before any request, and so does mapping over a list with
        a `null` element; both are caught, and nothing changes. On success
        every record with the edited `_id` is replaced by the server's record
        and edit mode ends. */
    method Update(reply: Reply) returns (sent: bool)
      modifies this
      ensures sent == old(editingProduct).Some?
      ensures old(editingProduct).Some? && reply.Succeeded? && NoNulls(old(products)) ==>
                && products == ReplaceById(old(products), old(editingProduct).value.id, reply.body)
                && editingProduct.None?
      ensures !(old(editingProduct).Some? && reply.Succeeded? && NoNulls(old(products))) ==>
                products == old(products) && editingProduct == old(editingProduct)
      ensures searchTerm == old(searchTerm)
      ensures showCreateForm == old(showCreateForm) && formData == old(formData)
    {
      sent := editingProduct.Some?;
      if editingProduct.Some? && reply.Succeeded? && NoNulls(products) {
        products := ReplaceById(products, editingProduct.value.id, reply.body);
        editingProduct := None;
      }
    }

    /** A click on "Crear Libro". The button is disabled unless the draft has
        a name, a stock and a category, and then nothing happens. Otherwise
        `handleCreate` sends the draft; on success the server's record is
        appended, the form closes and the draft is reset. */
    method SubmitCreate(reply: Reply) returns (sent: bool)
      modifies this
      ensures sent == CreateEnabled(old(formData))
      ensures sent && reply.Succeeded? ==>
                && products == old(products) + [reply.body]
                && !showCreateForm
                && formData == BlankCreateDraft()
      ensures !(sent && reply.Succeeded?) ==>
                products == old(products) && showCreateForm == old(showCreateForm) && formData == old(formData)
      ensures searchTerm == old(searchTerm) && editingProduct == old(editingProduct)
    {
      sent := CreateEnabled(formData);
      if sent && reply.Succeeded? {
        products := products + [reply.body];
        showCreateForm := false;
        formData := BlankCreateDraft();
      }
    }
  }

  /** A confirmed, successful delete removes exactly the records with the
      target `_id`, keeps the others in order, and shortens the list by the
      number of records it removed. */
  lemma {:induction false} DeleteRemovesExactly(products: seq<Entry>, id: Id)
    requires NoNulls(products)
    ensures |RemoveById(products, id)| + CountId(products, id) == |products|
    ensures forall e :: e in RemoveById(products, id) <==> e in products && e.value.id != id
    ensures IsSubsequence(RemoveById(products, id), products)
  {
    RemoveByIdKeepsOrder(products, id);
    RemoveByIdCounts(products, id);
    if products != [] {
      DeleteRemovesExactly(products[1..], id);
    }
  }

  /** The number of records carrying the given `_id`. */
  function CountId(s: seq<Entry>, id: Id): (n: nat)
    requires NoNulls(s)
    ensures n <= |s|
    ensures n == 0 <==> forall i :: 0 <= i < |s| ==> s[i].value.id != id
  {
    if s == [] then 0
    else (if s[0].value.id == id then 1 else 0) + CountId(s[1..], id)
  }

  /** When the server's record keeps the edited `_id`, a successful update
      leaves as many records with that `_id` as before: it replaces, never
      adds or drops. */
  lemma {:induction false} UpdateKeepsIdCount(products: seq<Entry>, id: Id, updated: Entry)
    requires NoNulls(products) && updated.Some? && updated.value.id == id
    ensures NoNulls(ReplaceById(products, id, updated))
    ensures CountId(ReplaceById(products, id, updated), id) == CountId(products, id)
  {
    if products != [] {
      UpdateKeepsIdCount(products[1..], id, updated);
      assert ReplaceById(products, id, updated)[1..] == ReplaceById(products[1..], id, updated);
    }
  }
}
