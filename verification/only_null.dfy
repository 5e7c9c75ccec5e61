/**
 * The `only_null` crate: `OnlyNull<T>`, a pointer that can only ever be null.
 *
 * A value stores nothing but the pointer metadata of its target type `T`
 * (`PhantomData<*const T>` is the phantom type parameter `T`). The Rust bound
 * `T: Pointee<Metadata = ...>` becomes the second type parameter `M`:
 *   - `null` exists for every target whose metadata is `()`, sized or not;
 *     the `From`/`TryFrom` impls exist only for sized targets, whose metadata
 *     is `()`; all of them fix `M` to `()`;
 *   - `cast` works for every target, whatever its metadata, and its bound
 *     `U: Pointee<Metadata = T::Metadata>` is "the same `M` on both sides".
 * Derived `PartialEq`/`Eq` compare the stored metadata, which is Dafny's
 * structural `==` on these datatypes.
 */
module OnlyNullPointer {
  import opened Core

  /** `OnlyNull<T>` with `M = <T as Pointee>::Metadata`. */
  datatype OnlyNull<T, M> = OnlyNull(meta: M)

  /** `ConvertToOnlyNullError`: a unit struct, so every failure is the same value. */
  datatype ConvertToOnlyNullError = ConvertToOnlyNullError

  /**
   * What a value stands for: the null pointer to `T` that carries the stored
   * metadata. Every operation below is stated against this.
   */
  ghost function Denotation<T, M>(x: OnlyNull<T, M>): ConstPtr<T, M> {
    ConstPtr(NULL_ADDR, x.meta)
  }

  /** The metadata `()` of a sized target (or of an extern type) has exactly one value. */
  lemma UnitMetadataIsUnique(m: ())
    ensures m == ()
  {
  }

  /** `OnlyNull::<T>::null()`, for targets whose metadata is `()`. */
  function Null<T>(): (r: OnlyNull<T, ()>)
    ensures Denotation(r) == ConstNull<T>()
  {
    OnlyNull(())
  }

  /** `OnlyNull::<T>::cast::<U>()`: same metadata, new target type. */
  function Cast<T, U, M>(x: OnlyNull<T, M>): (r: OnlyNull<U, M>)
    ensures ConstToRawParts(Denotation(r)) == ConstToRawParts(Denotation(x))
  {
    OnlyNull(x.meta)
  }

  /** `impl From<OnlyNull<T>> for *const T` (sized `T`): always `ptr::null()`. */
  function IntoConst<T>(x: OnlyNull<T, ()>): (p: ConstPtr<T, ()>)
    ensures ConstIsNull(p)
    ensures p == Denotation(x)
  {
    UnitMetadataIsUnique(x.meta);
    ConstNull()
  }

  /** `impl From<OnlyNull<T>> for *mut T` (sized `T`): always `ptr::null_mut()`. */
  function IntoMut<T>(x: OnlyNull<T, ()>): (p: MutPtr<T, ()>)
    ensures MutIsNull(p)
    ensures MutToRawParts(p) == ConstToRawParts(Denotation(x))
  {
    UnitMetadataIsUnique(x.meta);
    MutNull()
  }

  /**
   * `impl TryFrom<*const T> for OnlyNull<T>` (sized `T`): accepts exactly the
   * null pointers, keeping their metadata; rejects every other pointer with
   * `ConvertToOnlyNullError`.
   */
  function TryFromConst<T>(p: ConstPtr<T, ()>): (r: Result<OnlyNull<T, ()>, ConvertToOnlyNullError>)
    ensures r.Ok? <==> ConstIsNull(p)
    ensures r.Ok? ==> Denotation(r.value) == p
    ensures r.Err? ==> r.error == ConvertToOnlyNullError
  {
    if ConstIsNull(p) then
      Ok(OnlyNull(ConstToRawParts(p).1))
    else
      Err(ConvertToOnlyNullError)
  }

  /** `impl TryFrom<*mut T> for OnlyNull<T>` (sized `T`). */
  function TryFromMut<T>(p: MutPtr<T, ()>): (r: Result<OnlyNull<T, ()>, ConvertToOnlyNullError>)
    ensures r.Ok? <==> MutIsNull(p)
    ensures r.Ok? ==> ConstToRawParts(Denotation(r.value)) == MutToRawParts(p)
    ensures r.Err? ==> r.error == ConvertToOnlyNullError
  {
    if MutIsNull(p) then
      Ok(OnlyNull(MutToRawParts(p).1))
    else
      Err(ConvertToOnlyNullError)
  }

  // ---------------------------------------------------------------------------
  // null

  /** For a target whose metadata is `()`, `null()` is the only value there is: any two are equal. */
  lemma NullIsOnlyValue<T>(x: OnlyNull<T, ()>, y: OnlyNull<T, ()>)
    ensures x == y == Null<T>()
  {
    UnitMetadataIsUnique(x.meta);
    UnitMetadataIsUnique(y.meta);
  }

  /** `null()` is what the null raw pointer converts to, through either pointer kind. */
  lemma NullFromNullPointer<T>()
    ensures TryFromConst(ConstNull<T>()) == Ok(Null<T>())
    ensures TryFromMut(MutNull<T>()) == Ok(Null<T>())
  {
  }

  // ---------------------------------------------------------------------------
  // cast

  /** Casting `T` -> `U` -> `T` gives back the original value. */
  lemma CastRoundTrip<T, U, M>(x: OnlyNull<T, M>)
    ensures Cast<U, T, M>(Cast<T, U, M>(x)) == x
  {
  }

  /** Two casts in a row are one cast: the intermediate type leaves no trace. */
  lemma CastComposes<T, U, V, M>(x: OnlyNull<T, M>)
    ensures Cast<U, V, M>(Cast<T, U, M>(x)) == Cast<T, V, M>(x)
  {
  }

  /** Distinct values stay distinct under a cast. */
  lemma CastInjective<T, U, M>(x: OnlyNull<T, M>, y: OnlyNull<T, M>)
    ensures Cast<T, U, M>(x) == Cast<T, U, M>(y) <==> x == y
  {
  }

  /** Every value of the target type is reached by a cast from the source type. */
  lemma CastSurjective<T, U, M>(y: OnlyNull<U, M>)
    ensures exists x: OnlyNull<T, M> :: Cast<T, U, M>(x) == y
  {
    CastRoundTrip<U, T, M>(y);
    assert Cast<T, U, M>(Cast<U, T, M>(y)) == y;
  }

  /**
   * Illustration of `CastRoundTrip` and `Cast` for slice metadata: every slice
   * length survives a cast to another slice type and back (`seq<bv8>` and
   * `seq<bv16>` stand for the targets `[u8]` and `[u16]`).
   */
  lemma SliceLengthSurvivesCast(x: OnlyNull<seq<bv8>, usize>)
    ensures Cast<seq<bv8>, seq<bv16>, usize>(x).meta == x.meta
    ensures Cast<seq<bv16>, seq<bv8>, usize>(Cast<seq<bv8>, seq<bv16>, usize>(x)) == x
  {
  }

  // ---------------------------------------------------------------------------
  // From<OnlyNull<T>> for raw pointers

  /** The raw pointer produced does not depend on the value converted. */
  lemma IntoIgnoresValue<T>(x: OnlyNull<T, ()>, y: OnlyNull<T, ()>)
    ensures IntoConst(x) == IntoConst(y) == ConstNull<T>()
    ensures IntoMut(x) == IntoMut(y) == MutNull<T>()
  {
  }

  // ---------------------------------------------------------------------------
  // TryFrom<raw pointer>

  /** Converting out and back in again gives the original value, for both pointer kinds. */
  lemma IntoThenTryFrom<T>(x: OnlyNull<T, ()>)
    ensures TryFromConst(IntoConst(x)) == Ok(x)
    ensures TryFromMut(IntoMut(x)) == Ok(x)
  {
  }

  /** A successful conversion in and back out again gives the original pointer. */
  lemma TryFromThenInto<T>(p: ConstPtr<T, ()>, q: MutPtr<T, ()>)
    ensures TryFromConst(p).Ok? ==> IntoConst(TryFromConst(p).value) == p
    ensures TryFromMut(q).Ok? ==> IntoMut(TryFromMut(q).value) == q
  {
  }

  /**
   * `TryFrom` and `From` are inverse bijections between `OnlyNull<T>` and the
   * null raw pointers: the conversion of `p` succeeds with `x` exactly when
   * `p` is what `x` converts into.
   */
  lemma TryFromInvertsInto<T>(p: ConstPtr<T, ()>, q: MutPtr<T, ()>, x: OnlyNull<T, ()>)
    ensures TryFromConst(p) == Ok(x) <==> p == IntoConst(x)
    ensures TryFromMut(q) == Ok(x) <==> q == IntoMut(x)
  {
  }

  /** Every value arises from converting some null `*const T`. */
  lemma EveryValueFromNullConst<T>(x: OnlyNull<T, ()>)
    ensures exists p: ConstPtr<T, ()> :: ConstIsNull(p) && TryFromConst(p) == Ok(x)
  {
    IntoThenTryFrom(x);
    assert ConstIsNull(IntoConst(x)) && TryFromConst(IntoConst(x)) == Ok(x);
  }

  /** Every value arises from converting some null `*mut T`. */
  lemma EveryValueFromNullMut<T>(x: OnlyNull<T, ()>)
    ensures exists q: MutPtr<T, ()> :: MutIsNull(q) && TryFromMut(q) == Ok(x)
  {
    IntoThenTryFrom(x);
    assert MutIsNull(IntoMut(x)) && TryFromMut(IntoMut(x)) == Ok(x);
  }

  /** Every rejected pointer, of either kind, yields the one payload-free error. */
  lemma FailuresAreEqual<T>(p: ConstPtr<T, ()>, q: MutPtr<T, ()>)
    requires !ConstIsNull(p) && !MutIsNull(q)
    ensures TryFromConst(p) == TryFromMut(q) == Err(ConvertToOnlyNullError)
  {
  }

  /** The `*const T` and `*mut T` conversions agree on pointers with equal raw parts. */
  lemma ConstAndMutAgree<T>(p: ConstPtr<T, ()>, q: MutPtr<T, ()>)
    requires ConstToRawParts(p) == MutToRawParts(q)
    ensures TryFromConst(p) == TryFromMut(q)
  {
  }
}
