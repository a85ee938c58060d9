/** Memory addresses, as numbers. */
module Addresses {
  const NULL: nat := 0
}
