// Small vocabulary shared by every module of the project.
module Prelude {

  datatype Option<+T> = None | Some(value: T)

  // How an operation that may throw came to an end.
  datatype Outcome = Ok | Threw

  ghost function Elements<T>(s: seq<T>): set<T> {
    set x | x in s
  }

  // No entry of the list comes twice.
  ghost predicate Distinct<T>(s: seq<T>) {
    forall i, j :: 0 <= i < j < |s| ==> s[i] != s[j]
  }
}
