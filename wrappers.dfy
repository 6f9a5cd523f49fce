/** The optional-value wrapper used for fields a listing may lack and for
    form controls that may hold no value. */
module Wrappers {

  datatype Option<+T> = None | Some(value: T)
}
