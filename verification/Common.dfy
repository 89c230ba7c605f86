/** Small things that several modules share. */
module Common {

  datatype Option<+T> = None | Some(value: T)

  /** The number of values of a 32-bit unsigned integer. */
  const UINT: nat := 0x1_0000_0000

  /** The number of blocks that one file system call may log. */
  const MAXOPBLOCKS: nat := 10

  lemma SubsetSize<T>(a: set<T>, b: set<T>)
    requires a <= b
    ensures |a| <= |b|
  {
    assert b == a + (b - a);
  }
}
