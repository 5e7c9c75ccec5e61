/**
 * The part of Rust's `core` library that the `only_null` crate builds on:
 * machine-sized integers, `Result`, and the two raw pointer types
 * `*const T` and `*mut T` together with `ptr::null`, `ptr::null_mut`,
 * `is_null` and `to_raw_parts`.
 *
 * A raw pointer is an address plus the pointer metadata of its target type.
 * The target type `T` is a phantom type parameter: it is never stored, it only
 * keeps pointers to different targets apart. The metadata type `M` stands for
 * `<T as Pointee>::Metadata`: `()` for sized targets, a length for slices, a
 * vtable handle for trait objects.
 */
module Core {

  /** Addresses and slice lengths: `usize` on a 64-bit target. */
  newtype usize = x: int | 0 <= x < 0x1_0000_0000_0000_0000

  /** The address every null pointer has. */
  const NULL_ADDR: usize := 0

  /** `core::result::Result`. */
  datatype Result<+R, +E> = Ok(value: R) | Err(error: E)

  /** `*const T`, with `M` the metadata type of `T`. */
  datatype ConstPtr<T, M> = ConstPtr(addr: usize, meta: M)

  /** `*mut T`, with `M` the metadata type of `T`. */
  datatype MutPtr<T, M> = MutPtr(addr: usize, meta: M)

  /** `<*const T>::is_null`: only the address is looked at, never the metadata. */
  predicate ConstIsNull<T, M>(p: ConstPtr<T, M>) {
    p.addr == NULL_ADDR
  }

  /** `<*mut T>::is_null`. */
  predicate MutIsNull<T, M>(p: MutPtr<T, M>) {
    p.addr == NULL_ADDR
  }

  /** `<*const T>::to_raw_parts`: the address and the metadata. */
  function ConstToRawParts<T, M>(p: ConstPtr<T, M>): (usize, M) {
    (p.addr, p.meta)
  }

  /** `<*mut T>::to_raw_parts`. */
  function MutToRawParts<T, M>(p: MutPtr<T, M>): (usize, M) {
    (p.addr, p.meta)
  }

  /** `core::ptr::null::<T>()`, which exists for targets whose metadata is `()`. */
  function ConstNull<T>(): ConstPtr<T, ()> {
    ConstPtr(NULL_ADDR, ())
  }

  /** `core::ptr::null_mut::<T>()`. */
  function MutNull<T>(): MutPtr<T, ()> {
    MutPtr(NULL_ADDR, ())
  }
}
