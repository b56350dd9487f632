/** The octets that packets and recorded hostnames are made of. */
module Bytes {

  newtype byte = x: int | 0 <= x < 256
}
