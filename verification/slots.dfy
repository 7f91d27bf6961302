/** JavaScript values that may be missing: a handler slot holding `null`, or
    a dictionary member that was not given. */
module Slots {

  /** Either nothing or one value. */
  datatype Slot<T> = Absent | Present(value: T)
}
