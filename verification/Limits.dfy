/**
 Nested limit and data-use objects, and the `narrowerObject` test that a delegated Mandate's
 objects must pass against its parent's.
 */
module Limits {
  import opened Wrappers
  import opened Decimals

  datatype Primitive = Null | Bool(b: bool) | Number(n: int) | Text(s: string)

  datatype Item = Primitive(p: Primitive) | List(items: seq<Primitive>) | Object(fields: map<string, Item>)

  type Fields = map<string, Item>

  /** `fields[key]`, with `None` for JavaScript's `undefined`. */
  function At(fields: Fields, key: string): Option<Item> {
    if key in fields then Some(fields[key]) else None
  }

  predicate IsText(o: Option<Item>) {
    o.Some? && o.value.Primitive? && o.value.p.Text?
  }

  predicate IsNumber(o: Option<Item>) {
    o.Some? && o.value.Primitive? && o.value.p.Number?
  }

  predicate IsDecimalText(o: Option<Item>) {
    IsText(o) && IsDecimal(o.value.p.s)
  }

  /** The test `narrowerObject` applies to one entry of the parent. */
  predicate NarrowerEntry(child: Option<Item>, parent: Item)
    decreases parent
  {
    if IsNumber(Some(parent)) then
      IsNumber(child) && child.value.p.n <= parent.p.n
    else if IsDecimalText(Some(parent)) then
      IsDecimalText(child) && Compare(child.value.p.s, parent.p.s).value <= 0
    else if parent.List? then
      child.Some? && child.value.List? && forall item <- child.value.items :: item in parent.items
    else if parent.Object? then
      && child.Some? && child.value.Object?
      && forall key <- parent.fields.Keys :: NarrowerEntry(At(child.value.fields, key), parent.fields[key])
    else
      child == Some(parent)
  }

  predicate NarrowerFields(child: Fields, parent: Fields) {
    forall key <- parent.Keys :: NarrowerEntry(At(child, key), parent[key])
  }

  /** `narrowerObject`: an absent parent constrains nothing, an absent child drops a constraint. */
  predicate Narrower(child: Option<Fields>, parent: Option<Fields>) {
    parent.None? || (child.Some? && NarrowerFields(child.value, parent.value))
  }

  /******* Narrowing is a preorder *******/

  lemma NarrowerDecimal(child: string, parent: string)
    requires IsDecimal(child) && IsDecimal(parent)
    ensures Compare(child, parent).Returned?
    ensures Compare(child, parent).value <= 0 <==> Value(child) <= Value(parent)
  {
    CompareMeaning(child, parent);
  }

  lemma {:induction false} EntryReflexive(item: Item)
    ensures NarrowerEntry(Some(item), item)
    decreases item
  {
    if IsDecimalText(Some(item)) {
      NarrowerDecimal(item.p.s, item.p.s);
    } else if item.Object? {
      forall key | key in item.fields.Keys
        ensures NarrowerEntry(At(item.fields, key), item.fields[key])
      {
        EntryReflexive(item.fields[key]);
      }
    }
  }

  lemma {:induction false} EntryTransitive(child: Option<Item>, middle: Item, parent: Item)
    requires NarrowerEntry(child, middle) && NarrowerEntry(Some(middle), parent)
    ensures NarrowerEntry(child, parent)
    decreases parent
  {
    if IsDecimalText(Some(parent)) {
      NarrowerDecimal(child.value.p.s, middle.p.s);
      NarrowerDecimal(middle.p.s, parent.p.s);
      NarrowerDecimal(child.value.p.s, parent.p.s);
    } else if parent.Object? {
      forall key | key in parent.fields.Keys
        ensures NarrowerEntry(At(child.value.fields, key), parent.fields[key])
      {
        PresentIn(At(middle.fields, key), parent.fields[key]);
        EntryTransitive(At(child.value.fields, key), middle.fields[key], parent.fields[key]);
      }
    }
  }

  /** A constrained key cannot be left out. */
  lemma PresentIn(child: Option<Item>, parent: Item)
    requires NarrowerEntry(child, parent)
    ensures child.Some?
  {
  }

  /** Every object narrows itself. */
  lemma NarrowerReflexive(x: Option<Fields>)
    ensures Narrower(x, x)
  {
    if x.Some? {
      EntryReflexive(Object(x.value));
    }
  }

  /** Narrowing composes. */
  lemma NarrowerTransitive(child: Option<Fields>, middle: Option<Fields>, parent: Option<Fields>)
    requires Narrower(child, middle) && Narrower(middle, parent)
    ensures Narrower(child, parent)
  {
    if parent.Some? {
      EntryTransitive(Some(Object(child.value)), Object(middle.value), Object(parent.value));
    }
  }

  /******* Mutual narrowing *******/

  ghost function Elements(items: seq<Primitive>): set<Primitive> {
    set item | item in items
  }

  /** Equal up to decimal value and array order and repetition, at every depth. */
  ghost predicate Equivalent(a: Item, b: Item)
    decreases b
  {
    if IsDecimalText(Some(a)) && IsDecimalText(Some(b)) then
      Value(a.p.s) == Value(b.p.s)
    else if a.List? && b.List? then
      Elements(a.items) == Elements(b.items)
    else if a.Object? && b.Object? then
      && a.fields.Keys == b.fields.Keys
      && forall key <- b.fields.Keys :: Equivalent(a.fields[key], b.fields[key])
    else
      a == b
  }

  /** Two objects narrow each other exactly when they are equivalent. */
  lemma {:induction false} MutualNarrowing(a: Item, b: Item)
    ensures NarrowerEntry(Some(a), b) && NarrowerEntry(Some(b), a) <==> Equivalent(a, b)
    decreases b
  {
    if IsDecimalText(Some(a)) && IsDecimalText(Some(b)) {
      NarrowerDecimal(a.p.s, b.p.s);
      NarrowerDecimal(b.p.s, a.p.s);
    } else if a.List? && b.List? {
      MutualLists(a.items, b.items);
    } else if a.Object? && b.Object? {
      MutualObjects(a.fields, b.fields, b);
    }
  }

  lemma MutualLists(a: seq<Primitive>, b: seq<Primitive>)
    ensures (forall item <- a :: item in b) && (forall item <- b :: item in a) <==> Elements(a) == Elements(b)
  {
    if Elements(a) == Elements(b) {
      forall item | item in a
        ensures item in b
      {
        assert item in Elements(a);
      }
      forall item | item in b
        ensures item in a
      {
        assert item in Elements(b);
      }
    }
  }

  lemma {:induction false} MutualObjects(a: Fields, b: Fields, whole: Item)
    requires whole.Object? && whole.fields == b
    ensures NarrowerFields(a, b) && NarrowerFields(b, a) <==>
            a.Keys == b.Keys && forall key <- b.Keys :: Equivalent(a[key], b[key])
    decreases whole, 0
  {
    if NarrowerFields(a, b) && NarrowerFields(b, a) {
      forall key | key in b.Keys
        ensures key in a.Keys
      {
        PresentIn(At(a, key), b[key]);
      }
      forall key | key in a.Keys
        ensures key in b.Keys
      {
        PresentIn(At(b, key), a[key]);
      }
    }
    if a.Keys == b.Keys {
      forall key | key in b.Keys
        ensures NarrowerEntry(At(a, key), b[key]) && NarrowerEntry(At(b, key), a[key]) <==> Equivalent(a[key], b[key])
      {
        MutualNarrowing(a[key], b[key]);
      }
    }
  }

  /******* What limits admit *******/

  /** A use that a limit may admit: an amount, a price, one value, a selection, or a record of uses. */
  datatype Use =
    | Amount(n: int)
    | Price(v: real)
    | Exactly(p: Primitive)
    | Selection(s: set<Primitive>)
    | Record(uses: map<string, Use>)

  /** A number or decimal admits what is at most it, a list any selection of its members, an object
      the records in which every key it constrains is admitted, and any other value only itself. */
  ghost predicate Admits(limit: Item, use: Use) {
    match limit
    case Primitive(Number(n)) => use.Amount? && use.n <= n
    case Primitive(Text(s)) => if IsDecimal(s) then use.Price? && use.v <= Value(s) else use == Exactly(Text(s))
    case Primitive(p) => use == Exactly(p)
    case List(items) => use.Selection? && forall p <- use.s :: p in items
    case Object(fields) =>
      use.Record? && forall key <- fields.Keys :: key in use.uses && Admits(fields[key], use.uses[key])
  }

  /** The largest use that a limit admits. */
  ghost function Full(limit: Item): Use {
    match limit
    case Primitive(Number(n)) => Amount(n)
    case Primitive(Text(s)) => if IsDecimal(s) then Price(Value(s)) else Exactly(Text(s))
    case Primitive(p) => Exactly(p)
    case List(items) => Selection(set p | p in items)
    case Object(fields) => Record(map key | key in fields :: Full(fields[key]))
  }

  lemma {:induction false} FullIsAdmitted(a: Item)
    ensures Admits(a, Full(a))
  {
    if a.Object? {
      forall key | key in a.fields.Keys
        ensures Admits(a.fields[key], Full(a.fields[key]))
      {
        FullIsAdmitted(a.fields[key]);
      }
    }
  }

  /** Narrowing is decided by the largest use. */
  lemma {:induction false} FullDecides(a: Item, b: Item)
    ensures NarrowerEntry(Some(a), b) <==> Admits(b, Full(a))
    decreases b
  {
    if IsDecimalText(Some(a)) && IsDecimalText(Some(b)) {
      NarrowerDecimal(a.p.s, b.p.s);
    } else if a.Object? && b.Object? {
      forall key | key in b.fields.Keys && key in a.fields
        ensures NarrowerEntry(Some(a.fields[key]), b.fields[key]) <==> Admits(b.fields[key], Full(a.fields[key]))
      {
        FullDecides(a.fields[key], b.fields[key]);
      }
      forall key | key in b.fields.Keys && NarrowerEntry(At(a.fields, key), b.fields[key])
        ensures key in a.fields
      {
        PresentIn(At(a.fields, key), b.fields[key]);
      }
    }
  }

  lemma {:induction false} AdmitsMore(a: Item, b: Item, use: Use)
    requires NarrowerEntry(Some(a), b) && Admits(a, use)
    ensures Admits(b, use)
    decreases b
  {
    if IsDecimalText(Some(b)) {
      NarrowerDecimal(a.p.s, b.p.s);
    } else if b.Object? {
      forall key | key in b.fields.Keys
        ensures key in use.uses && Admits(b.fields[key], use.uses[key])
      {
        PresentIn(At(a.fields, key), b.fields[key]);
        AdmitsMore(a.fields[key], b.fields[key], use.uses[key]);
      }
    }
  }

  /** One entry narrows another exactly when everything it admits is admitted by the other. */
  lemma EntryMeaning(a: Item, b: Item)
    ensures NarrowerEntry(Some(a), b) <==> forall use :: Admits(a, use) ==> Admits(b, use)
  {
    hide NarrowerEntry, Admits, Full;
    if NarrowerEntry(Some(a), b) {
      forall use | Admits(a, use)
        ensures Admits(b, use)
      {
        AdmitsMore(a, b, use);
      }
    } else {
      FullIsAdmitted(a);
      FullDecides(a, b);
    }
  }

  /** Lists narrow as sets do. */
  lemma ListMeaning(a: seq<Primitive>, b: seq<Primitive>)
    ensures NarrowerEntry(Some(List(a)), List(b)) <==> Elements(a) <= Elements(b)
  {
    FullDecides(List(a), List(b));
    assert Full(List(a)) == Selection(Elements(a));
    if Elements(a) <= Elements(b) {
      forall p | p in Elements(a)
        ensures p in b
      {
        assert p in Elements(b);
      }
    }
  }

  /** Absent limits admit everything. */
  ghost predicate AllAdmit(limits: Option<Fields>, use: Use) {
    limits.None? || Admits(Object(limits.value), use)
  }

  /** Limits narrow others exactly when everything they admit is admitted by the others. */
  lemma NarrowerMeaning(child: Option<Fields>, parent: Option<Fields>)
    ensures Narrower(child, parent) <==> forall use :: AllAdmit(child, use) ==> AllAdmit(parent, use)
  {
    if parent.Some? {
      if child.Some? {
        var a, b := Object(child.value), Object(parent.value);
        assert Narrower(child, parent) == NarrowerEntry(Some(a), b);
        hide Admits, Narrower, NarrowerEntry, Full;
        if Narrower(child, parent) {
          forall use | AllAdmit(child, use)
            ensures AllAdmit(parent, use)
          {
            AdmitsMore(a, b, use);
          }
        } else {
          FullIsAdmitted(a);
          FullDecides(a, b);
          assert AllAdmit(child, Full(a)) && !AllAdmit(parent, Full(a));
        }
      } else {
        assert AllAdmit(child, Amount(0)) && !AllAdmit(parent, Amount(0));
      }
    }
  }
}
