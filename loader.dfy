/**
 * What the operating system's dynamic loader answers. The loader itself
 * (dlopen, dlsym, dlerror) is not modelled: each call to it becomes a value
 * of one of these types, supplied by the caller of the operation that would
 * have made the call. Diagnostic text is opaque.
 */
module Loader {

  /** A non-null library handle. */
  datatype Handle = Handle(id: nat)

  /** A non-null symbol address (a `Function` that is not `nullptr`). */
  datatype Address = Address(id: nat)

  /** The outcome of opening a library: a handle, or null together with the loader's message. */
  datatype LoadResult = Loaded(handle: Handle) | LoadFailed(message: string)

  /** The outcome of looking a symbol up: an address, or null together with the loader's message. */
  datatype LookupResult = Found(address: Address) | NotFound(message: string)
}
