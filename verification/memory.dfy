/** Storage and aliasing. A C++ reference, and the std::reference_wrapper an optional
    holds in its place, is modelled as an address into a small heap; two
    references alias exactly when they carry the same address. */
module Memory {
  import opened Optional

  type Loc = nat

  /** What a reference can point at: the object stored at a location, or the value
      contained in the optional object stored at a location. */
  datatype Addr = Whole(loc: Loc) | Inner(loc: Loc)

  /** What an optional contains: a value it owns, or a reference_wrapper aliasing
      storage owned elsewhere. */
  datatype Elem<T> = Own(v: T) | Wrap(to: Addr)

  /** One object in storage: a plain variable, or an optional variable. */
  datatype Cell<T> = ValueCell(e: Elem<T>) | OptionalCell(o: Option<Elem<T>>)

  /** Storage, with the next location never handed out yet. */
  datatype Heap<T> = Heap(cells: map<Loc, Cell<T>>, next: Loc)

  /** Every allocated location lies below `next`, so `next` is fresh. */
  predicate Good<T>(h: Heap<T>)
  {
    forall l :: l in h.cells ==> l < h.next
  }

  /** The element stored at an address, if an object lives there. The value inside an
      empty optional does not exist. */
  function Deref<T>(h: Heap<T>, a: Addr): Option<Elem<T>>
  {
    match a
    case Whole(l) => if l in h.cells && h.cells[l].ValueCell? then Some(h.cells[l].e) else None
    case Inner(l) => if l in h.cells && h.cells[l].OptionalCell? then h.cells[l].o else None
  }

  /** A reference to `a` may be read and written through. */
  predicate Live<T>(h: Heap<T>, a: Addr)
  {
    Deref(h, a).Some?
  }

  /** Writing through a reference (`ref.get() = e`): the addressed object now holds
      `e`, and no other address reads differently. */
  function Assign<T>(h: Heap<T>, a: Addr, e: Elem<T>): (r: Heap<T>)
    requires Live(h, a)
    ensures Deref(r, a) == Some(e)
    ensures forall b :: b != a ==> Deref(r, b) == Deref(h, b)
    ensures r.cells.Keys == h.cells.Keys && r.next == h.next
  {
    match a
    case Whole(l) => Heap(h.cells[l := ValueCell(e)], h.next)
    case Inner(l) => Heap(h.cells[l := OptionalCell(Some(e))], h.next)
  }

  /** What an element stands for when read (reference_wrapper::get): an owned value
      is itself, a wrapper is whatever its address currently holds. */
  function Denote<T>(h: Heap<T>, e: Elem<T>): Option<Elem<T>>
  {
    match e
    case Own(_) => Some(e)
    case Wrap(a) => Deref(h, a)
  }

  /** Places a new object at a fresh location: it holds `c`, and every address that
      read something before reads the same afterwards. */
  function Alloc<T>(h: Heap<T>, c: Cell<T>): (r: (Heap<T>, Loc))
    ensures r.1 in r.0.cells && r.0.cells[r.1] == c
    ensures Good(h) ==> r.1 !in h.cells && Good(r.0)
    ensures Good(h) ==> forall a: Addr :: a.loc in h.cells ==> Deref(r.0, a) == Deref(h, a)
  {
    (Heap(h.cells[h.next := c], h.next + 1), h.next)
  }

  /** Aliasing, from the reader's side: after a write through address `a`, every
      wrapper holding `a` denotes the new element, while an owned element is a copy
      and does not change. */
  lemma WriteVisibleThroughAlias<T>(h: Heap<T>, a: Addr, e: Elem<T>, held: Elem<T>)
    requires Live(h, a)
    ensures held == Wrap(a) ==> Denote(Assign(h, a, e), held) == Some(e)
    ensures held.Own? ==> Denote(Assign(h, a, e), held) == Denote(h, held)
  {
  }
}
