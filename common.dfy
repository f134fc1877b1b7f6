// Small shared vocabulary of the model.

module Common {

  /** An optional value (a null pointer, a missing map entry, `std::optional`). */
  datatype Option<T> = None | Some(value: T)

  /** A mesh handle; the mesh's GPU data (VAO, draw count, AABB) is looked up by it. */
  type MeshId = nat

  /** `uint8_t`. */
  type Byte = x: int | 0 <= x < 256

  /** `uint32_t`. */
  type U32 = x: int | 0 <= x < 0x1_0000_0000

  /** A conversion to `uint32_t`: the value modulo 2^32. */
  function ToU32(x: int): (r: U32)
    ensures 0 <= x < 0x1_0000_0000 ==> r == x
  {
    x % 0x1_0000_0000
  }

  /** `mask | m`: the bits of m are set and no other bit changes. */
  function SetBits(mask: bv32, m: bv32): (r: bv32)
    ensures r & m == m && r & !m == mask & !m
  {
    mask | m
  }

  /** `mask & ~m`: the bits of m are clear and no other bit changes. */
  function ClearBits(mask: bv32, m: bv32): (r: bv32)
    ensures r & m == 0 && r & !m == mask & !m
  {
    mask & !m
  }
}
