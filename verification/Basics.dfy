// Absent values, byte strings and functions that are one to one on a set: vocabulary that the
// other modules share, none of it specific to the repository.
module Basics {
  datatype Option<+T> = None | Some(value: T)

  type Byte = b: int | 0 <= b < 256
  type Bytes = seq<Byte>

  ghost predicate Collide<A(!new), B(!new)>(f: A -> B, a: A, b: A) {
    a != b && f(a) == f(b)
  }

  ghost predicate InjectiveOn<A(!new), B(!new)>(f: A -> B, s: set<A>) {
    forall a, b {:trigger Collide(f, a, b)} | a in s && b in s :: !Collide(f, a, b)
  }
}
