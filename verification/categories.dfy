/** The category registry (`dorm.expense.category`): named, coded
    classification buckets, listed by (sequence, name), with a unique code. */
module Categories {
  import opened Wrappers
  import opened Sorting

  /** Colour, icon and description are display-only and not modelled. */
  datatype Category = Category(code: string, name: string, sequence: int, active: bool)

  /** A category as created with only its required fields set: sequence 10, active. */
  function NewCategory(code: string, name: string): (c: Category)
    ensures c.code == code && c.name == name
    ensures c.sequence == 10 && c.active
  {
    Category(code, name, 10, true)
  }

  /** The `code_unique` constraint over a whole registry. */
  predicate CodesUnique(reg: seq<Category>) {
    forall i, j :: 0 <= i < j < |reg| ==> reg[i].code != reg[j].code
  }

  predicate HasCode(reg: seq<Category>, code: string) {
    exists k :: 0 <= k < |reg| && reg[k].code == code
  }

  datatype RegistryError = DuplicateCode(code: string)

  /** Inserting a category: refused when its code is already taken, else appended. */
  function AddCategory(reg: seq<Category>, c: Category): (r: Result<seq<Category>, RegistryError>)
    ensures r.Success? <==> !HasCode(reg, c.code)
    ensures r.Success? ==> r.value == reg + [c]
    ensures r.Failure? ==> r.error == DuplicateCode(c.code)
  {
    if exists k :: 0 <= k < |reg| && reg[k].code == c.code then Failure(DuplicateCode(c.code))
    else Success(reg + [c])
  }

  /** Adding categories one at a time keeps every code unique. */
  lemma AddKeepsCodesUnique(reg: seq<Category>, c: Category)
    requires CodesUnique(reg)
    requires AddCategory(reg, c).Success?
    ensures CodesUnique(AddCategory(reg, c).value)
    ensures |AddCategory(reg, c).value| == |reg| + 1
  {
    var r := AddCategory(reg, c).value;
    forall i, j | 0 <= i < j < |r|
      ensures r[i].code != r[j].code
    {
      if j == |reg| {
        assert r[i] == reg[i];
      }
    }
  }

  /** Lexicographic order of names by character code. */
  predicate NameLe(a: string, b: string)
    decreases |a|
  {
    |a| == 0 || (0 < |b| && (a[0] < b[0] || (a[0] == b[0] && NameLe(a[1..], b[1..]))))
  }

  lemma {:induction false} NameLeTotal(a: string, b: string)
    ensures NameLe(a, b) || NameLe(b, a)
    decreases |a|
  {
    if 0 < |a| && 0 < |b| && a[0] == b[0] {
      NameLeTotal(a[1..], b[1..]);
    }
  }

  /** The registry's `_order = 'sequence, name'`. */
  predicate OrderLe(a: Category, b: Category) {
    a.sequence < b.sequence || (a.sequence == b.sequence && NameLe(a.name, b.name))
  }

  lemma OrderLeTotal(a: Category, b: Category)
    ensures OrderLe(a, b) || OrderLe(b, a)
  {
    NameLeTotal(a.name, b.name);
  }

  lemma OrderLeIsTotal()
    ensures IsTotal(OrderLe)
  {
    forall a: Category, b: Category
      ensures OrderLe(a, b) || OrderLe(b, a)
    {
      OrderLeTotal(a, b);
    }
  }

  function Active(reg: seq<Category>): (r: seq<Category>)
    decreases |reg|
  {
    if |reg| == 0 then [] else (if reg[0].active then [reg[0]] else []) + Active(reg[1..])
  }

  lemma {:induction false} ActiveExactly(reg: seq<Category>)
    ensures forall c :: multiset(Active(reg))[c] == (if c.active then multiset(reg)[c] else 0)
    decreases |reg|
  {
    if |reg| > 0 {
      ActiveExactly(reg[1..]);
      assert reg == [reg[0]] + reg[1..];
    }
  }

  /** The active categories in listing order: ordered by (sequence, name)
      and holding exactly the active registry entries, each as often as
      the registry does. */
  function ListActive(reg: seq<Category>): (r: seq<Category>)
    ensures Ordered(r, OrderLe)
    ensures forall c :: multiset(r)[c] == (if c.active then multiset(reg)[c] else 0)
  {
    ActiveExactly(reg);
    OrderLeIsTotal();
    Sort(OrderLe, Active(reg))
  }
}
