/** Raw bytes as they arrive from USB. */
module Bytes {

  type byte = bv8
}
