/** The largest machine integers; a `usize` has 64 bits. */
module Machine {
  const ISIZE_MAX: nat := 0x7fff_ffff_ffff_ffff
  const USIZE_MAX: nat := 0xffff_ffff_ffff_ffff
}
