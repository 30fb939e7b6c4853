/** What the bindings share: driver handles and result codes. */
module OpenCL {
  type Handle = nat
  const NULL: Handle := 0

  const CL_SUCCESS := 0
  const CL_INVALID_OBJECT := -1
}
