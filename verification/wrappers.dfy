/** Optional values: the model's stand-in for a Java reference that may be null. */
module Wrappers {

  datatype Option<+T> = None | Some(value: T)

  /** `TextUtils.isEmpty`: a null or empty string. */
  predicate IsEmpty(s: Option<string>) {
    s.None? || s.value == ""
  }

}
