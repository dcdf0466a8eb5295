/**
 * Catalog management: appending a validated product, removing one by
 * position, and editing one in place through an edit buffer. Saves go to the
 * application's `products` through `onUpdateProducts`.
 */
module Products {
  import opened Wrappers
  import opened Types
  import opened Seqs
  import App

  /** The add form's initial contents: no name, unit 斤 (catty). */
  const BlankProduct := Product("", "斤")

  /** `handleAdd`'s list: an empty name or unit adds nothing; otherwise the product goes at the end, duplicates allowed. */
  function AddProduct(products: seq<Product>, p: Product): (r: seq<Product>)
    ensures p.itemName == "" || p.unit == "" ==> r == products
    ensures p.itemName != "" && p.unit != "" ==> r == products + [p]
  {
    if p.itemName == "" || p.unit == "" then products else products + [p]
  }

  /** `updated[index] = buffer` on a copy: in range it replaces one entry; at or past the end it extends the list. */
  function ReplaceAt(products: seq<Product>, index: nat, p: Product): (r: seq<Product>)
    ensures index < |products| ==> |r| == |products| && r[index] == p
    ensures index < |products| ==> forall k :: 0 <= k < |r| && k != index ==> r[k] == products[k]
    ensures index >= |products| ==> r == products + [p]
  {
    if index < |products| then products[index := p] else products + [p]
  }

  /** Saving an untouched buffer leaves the catalog as it was. */
  lemma ReplaceWithSame(products: seq<Product>, index: nat)
    requires index < |products|
    ensures ReplaceAt(products, index, products[index]) == products
  {
  }

  /** Two replaces at one position: the later wins. */
  lemma ReplaceTwice(products: seq<Product>, index: nat, p: Product, q: Product)
    requires index < |products|
    ensures ReplaceAt(ReplaceAt(products, index, p), index, q) == ReplaceAt(products, index, q)
  {
  }

  /** Removing a position takes exactly one copy of that product out of the catalog. */
  lemma RemoveTakesOneCopy(products: seq<Product>, index: nat)
    requires index < |products|
    ensures multiset(RemoveAt(products, index)) == multiset(products) - multiset{products[index]}
  {
    RemoveAtMultiset(products, index);
  }

  /** Adding a valid product and then removing the last position gives back the catalog. */
  lemma AddThenRemoveLast(products: seq<Product>, p: Product)
    requires p.itemName != "" && p.unit != ""
    ensures RemoveAt(AddProduct(products, p), |products|) == products
  {
    assert (products + [p])[..|products|] == products;
  }

  /**
   * The edit index is a position, not an identity: removing an earlier row
   * while a row is in edit mode makes the save land on the next product.
   * Editing B in [A, B, C], removing A, then saving writes B over C.
   */
  lemma RemoveWhileEditingOverwritesNext(a: Product, b: Product, c: Product)
    requires b != c
    ensures ReplaceAt(RemoveAt([a, b, c], 0), 1, b) == [b, b]
    ensures c !in ReplaceAt(RemoveAt([a, b, c], 0), 1, b)
  {
    assert RemoveAt([a, b, c], 0) == [b, c];
  }

  class ProductEditor {
    var newProduct: Product
    var editingIndex: Option<nat>
    var editBuffer: Option<Product>

    /** A row is in edit mode only with its buffer loaded. */
    ghost predicate Valid()
      reads this
    {
      editingIndex.Some? ==> editBuffer.Some?
    }

    constructor ()
      ensures Valid() && newProduct == BlankProduct && editingIndex == None && editBuffer == None
    {
      newProduct := BlankProduct;
      editingIndex := None;
      editBuffer := None;
    }

    method SetNewName(name: string)
      modifies this`newProduct
      ensures newProduct == old(newProduct).(itemName := name)
    {
      newProduct := newProduct.(itemName := name);
    }

    method SetNewUnit(unit: string)
      modifies this`newProduct
      ensures newProduct == old(newProduct).(unit := unit)
    {
      newProduct := newProduct.(unit := unit);
    }

    /** `handleAdd`: with a name and a unit, append and reset the form; otherwise change nothing. */
    method HandleAdd(app: App.AppState)
      modifies this`newProduct, app`products
      ensures app.products == AddProduct(old(app.products), old(newProduct))
      ensures newProduct == if old(newProduct).itemName == "" || old(newProduct).unit == "" then old(newProduct) else BlankProduct
    {
      if newProduct.itemName == "" || newProduct.unit == "" {
        return;
      }
      app.SetProducts(app.products + [newProduct]);
      newProduct := BlankProduct;
    }

    /** `handleRemove`, gated by the confirmation dialog. */
    method HandleRemove(app: App.AppState, index: nat, confirmed: bool)
      modifies app`products
      ensures app.products == if confirmed then RemoveAt(old(app.products), index) else old(app.products)
    {
      if confirmed {
        app.SetProducts(RemoveAt(app.products, index));
      }
    }

    /** `startEdit`: put row `index` in edit mode with a copy of its product. */
    method StartEdit(products: seq<Product>, index: nat)
      requires index < |products|
      modifies this`editingIndex, this`editBuffer
      ensures Valid() && editingIndex == Some(index) && editBuffer == Some(products[index])
    {
      editingIndex := Some(index);
      editBuffer := Some(products[index]);
    }

    method SetBufferName(name: string)
      requires Valid() && editingIndex.Some?
      modifies this`editBuffer
      ensures Valid() && editBuffer == Some(old(editBuffer).value.(itemName := name))
    {
      editBuffer := Some(editBuffer.value.(itemName := name));
    }

    method SetBufferUnit(unit: string)
      requires Valid() && editingIndex.Some?
      modifies this`editBuffer
      ensures Valid() && editBuffer == Some(old(editBuffer).value.(unit := unit))
    {
      editBuffer := Some(editBuffer.value.(unit := unit));
    }

    /** The cancel button leaves edit mode and keeps the buffer. */
    method CancelEdit()
      requires Valid()
      modifies this`editingIndex
      ensures Valid() && editingIndex == None
    {
      editingIndex := None;
    }

    /** `saveEdit`: without an edited row or a buffer nothing happens; otherwise write the buffer back and leave edit mode. */
    method SaveEdit(app: App.AppState)
      requires Valid()
      modifies this`editingIndex, this`editBuffer, app`products
      ensures Valid()
      ensures old(editingIndex).None? || old(editBuffer).None? ==>
        app.products == old(app.products) && editingIndex == old(editingIndex) && editBuffer == old(editBuffer)
      ensures old(editingIndex).Some? && old(editBuffer).Some? ==>
        && app.products == ReplaceAt(old(app.products), old(editingIndex).value, old(editBuffer).value)
        && editingIndex == None && editBuffer == None
    {
      if editingIndex.None? || editBuffer.None? {
        return;
      }
      app.SetProducts(ReplaceAt(app.products, editingIndex.value, editBuffer.value));
      editingIndex := None;
      editBuffer := None;
    }
  }
}
