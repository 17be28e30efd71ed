/** Points of the signal plane (nf_cpx_t), over the reals. */
module Plane {
  datatype Point = Point(re: real, im: real)
}
