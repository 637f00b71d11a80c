/** An optional value. In the browser model it stands for what
    `localStorage.getItem` and a property read on parsed JSON return when
    nothing is there (`null`, `undefined`). */
module Wrappers {

  datatype Option<T> = None | Some(value: T)
}
