# only_null in Dafny

A model of the Rust crate `only_null`. The crate has one type, `OnlyNull<T>`: a
pointer to `T` that can only ever be null. A value stores only the pointer
metadata of `T` plus a zero-sized `PhantomData<*const T>` marker. The metadata is
`()` for sized targets, a length for slices and a vtable handle for trait objects.
The crate offers five operations:

- `null()` builds the value for targets whose metadata is `()`.
- `cast::<U>()` re-types a value to any `U` with the same metadata type.
- `From<OnlyNull<T>>` for `*const T` and for `*mut T` always yields the null pointer.
- `TryFrom<*const T>` and `TryFrom<*mut T>` accept a raw pointer only if it is null.
  Any other pointer gives the payload-free `ConvertToOnlyNullError`.

Files:

- `core_ptr.dfy`, module `Core`: the parts of Rust's `core` that the crate uses.
  It holds `usize`, `Result`, and the raw pointers `*const T` / `*mut T`.
  A raw pointer is an (address, metadata) pair.
  `is_null` looks only at the address, and `to_raw_parts` splits a pointer.
  `ptr::null` / `ptr::null_mut` give the null pointer with `()` metadata.
- `only_null.dfy`, module `OnlyNullPointer`: the crate itself, with the lemmas.

Dafny has no associated types, so `<T as Pointee>::Metadata` is a second type
parameter `M` next to the phantom target type `T`.

- `cast` keeps `M` on both sides, which is how the model reads the bound
  `U: Pointee<Metadata = T::Metadata>` (which `M` belongs to which `T` is taken as given).
- `null` is written for `T: ?Sized` with `T: Pointee<Metadata = ()>`, so it fixes `M` to `()`.
- The `From` and `TryFrom` impls are written `impl<T>` with the implicit `T: Sized`.
  Sized targets have metadata `()`, so these also fix `M` to `()`.

This keeps the crate's asymmetry (src/lib.rs:26-28 and 41-47 against src/lib.rs:58, 66, 74, 89):
only `cast` is generic over targets whose metadata is not `()`; `null` is `?Sized` but needs
`Metadata = ()`, and the conversions need `T: Sized`.
The crate has no constructor for values with non-`()` metadata: `null()` needs `Metadata = ()`,
the `TryFrom` impls are sized-only, the fields are private, and the derived `Default` requires
`T: Default`, hence `T: Sized`. So `cast` on slice or trait-object targets is reachable only in
the model, where `SliceLengthSurvivesCast` shows that a slice length is carried unchanged.
The helper lemma `UnitMetadataIsUnique` records that `()` has exactly one value, which is why
a value for a target with `()` metadata carries no information besides its type.

The ghost function `Denotation` gives what a value stands for: the null `*const T`
carrying the stored metadata. The derived `PartialEq`/`Eq` compare the stored
metadata, because `PhantomData` values are all equal. That is Dafny's structural `==`
on `OnlyNull`.

## Model

| member | source | states |
|---|---|---|
| `OnlyNullPointer.Null` | src/lib.rs:33-38 | `null()` stands for the null `*const T`, i.e. `ptr::null()` |
| `OnlyNullPointer.NullIsOnlyValue` | src/lib.rs:17-38 | for a target with `()` metadata every value equals `null()`, so any two `null()` values compare equal under the derived `PartialEq` |
| `OnlyNullPointer.NullFromNullPointer` | src/lib.rs:33-38 | converting `ptr::null()` or `ptr::null_mut()` with `try_from` gives `Ok(null())` |
| `OnlyNullPointer.Cast` | src/lib.rs:47-55 | the cast result stands for a pointer with the same address (null) and exactly the same metadata as the input |
| `OnlyNullPointer.CastRoundTrip` | src/lib.rs:47-55 | casting `T` to `U` and back to `T` yields a value equal to the original |
| `OnlyNullPointer.CastComposes` | src/lib.rs:47-55 | casting `T` to `U` and then to `V` equals casting `T` to `V` directly |
| `OnlyNullPointer.CastInjective` | src/lib.rs:47-55 | two values cast to equal results if and only if they were equal |
| `OnlyNullPointer.CastSurjective` | src/lib.rs:47-55 | every `OnlyNull<U>` is the cast of some `OnlyNull<T>` with the same metadata type |
| `OnlyNullPointer.SliceLengthSurvivesCast` | src/lib.rs:47-55 | illustration for slice metadata: for every length, a slice value cast to another slice type keeps its length, and casting back gives the original |
| `OnlyNullPointer.IntoConst` | src/lib.rs:58-64 | `*const T::from` returns a null pointer, namely the one the value stands for |
| `OnlyNullPointer.IntoMut` | src/lib.rs:66-72 | `*mut T::from` returns a null pointer whose raw parts equal those of the pointer the value stands for |
| `OnlyNullPointer.IntoIgnoresValue` | src/lib.rs:58-72 | both `From` conversions return `ptr::null()` / `ptr::null_mut()` whatever value is converted |
| `OnlyNullPointer.TryFromConst` | src/lib.rs:74-87 | succeeds if and only if the pointer is null; on success the value stands for exactly the input pointer, so its metadata is the input's; otherwise `Err(ConvertToOnlyNullError)` |
| `OnlyNullPointer.TryFromMut` | src/lib.rs:89-102 | the same for `*mut T`: succeeds if and only if null, keeps the metadata, otherwise `Err(ConvertToOnlyNullError)` |
| `OnlyNullPointer.IntoThenTryFrom` | src/lib.rs:58-102 | `try_from(into(x)) == Ok(x)` for both the `*const` and the `*mut` route |
| `OnlyNullPointer.TryFromThenInto` | src/lib.rs:58-102 | when `try_from(p)` succeeds, converting its value back gives `p`, for both pointer kinds |
| `OnlyNullPointer.TryFromInvertsInto` | src/lib.rs:58-102 | `try_from(p) == Ok(x)` holds exactly when `p == into(x)`, for both pointer kinds: the conversions are inverse bijections between `OnlyNull<T>` and the null pointers |
| `OnlyNullPointer.EveryValueFromNullConst` | src/lib.rs:74-87 | every `OnlyNull<T>` value is the successful conversion of some null `*const T` |
| `OnlyNullPointer.EveryValueFromNullMut` | src/lib.rs:89-102 | every `OnlyNull<T>` value is the successful conversion of some null `*mut T` |
| `OnlyNullPointer.FailuresAreEqual` | src/lib.rs:84-106 | every non-null pointer, `*const` or `*mut`, gives the same `Err(ConvertToOnlyNullError)`, a unit error with no payload |
| `OnlyNullPointer.ConstAndMutAgree` | src/lib.rs:74-102 | the `*const T` and `*mut T` conversions give identical results on pointers with equal address and metadata |

## Left out

- The `Pointee` trait and `ptr_metadata` machinery: metadata is an uninterpreted type parameter `M`, and `to_raw_parts` is a projection of the (address, metadata) pair.
- Sizedness itself: Dafny cannot tell a sized target from an unsized one whose metadata is `()`, such as an extern type. The `From`/`TryFrom` functions therefore accept every target with `()` metadata, a superset of the sized targets.
- Which metadata type belongs to which target: `M` is taken as given, so the model also admits target/metadata pairings Rust rejects (such as a cast from `i32` to `[u8]` at `()` metadata). Every lemma holds for all `T` and `M`, so none depends on this.
- Vtable contents of trait-object metadata: nothing in the crate inspects them.
- The derived `Debug`, `Hash` and `Default` impls, and `Clone`/`Copy`: Dafny datatypes are immutable values, so copying is implicit. The derived `PartialEq`/`Eq` are structural `==`.
- The bounds the derives put on the phantom `T` (`T: PartialEq`, `T: Clone`/`Copy`, `T: Default`, `T: Hash`): in Rust two `OnlyNull<T>` values can be compared only when `T: PartialEq`, while Dafny's `==` exists for every `T`. This concerns only which comparisons compile, not their result.
- Crate attributes, lint settings, `#[inline]` and `#[must_use]`: they have no behaviour.
- Memory and dereferencing: the crate never touches memory.
- `usize` is modelled for a 64-bit target. A 32-bit target differs only in the bound, which no operation depends on.
