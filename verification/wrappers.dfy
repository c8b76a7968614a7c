/** The optional value used where the components hold `null` or an
    absent prop (an unset dropdown, a missing DOM ref, an omitted duration). */
module Wrappers {
  datatype Option<T> = None | Some(value: T)
}
