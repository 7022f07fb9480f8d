/** Values that may be absent: C++ pointers that may be NULL, and optional results. */
module Nullables {
  datatype Nullable<+T> = Null | Value(value: T)
}
