/** The four encodings of a two-bit privilege mode; H is reserved (rtl/core/friscv_pkg.sv:183-188). */
module Privilege {

  datatype Mode = U | S | H | M
}
