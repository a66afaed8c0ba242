/** Small value types shared by every module of the model. */
module Common {

  datatype Option<+T> = None | Some(value: T)

  datatype Result<+T, +E> = Success(value: T) | Failure(error: E)

  /** A JSON value, enough for the token claims and the serialised records. */
  datatype JsonValue =
    | JString(s: string)
    | JInt(n: int)
    | JBool(b: bool)
    | JObject(fields: map<string, JsonValue>)

  /** An identifier produced by uuid4, kept in its string form. */
  type Uid = string

  /** A supply of uuid4 values: `uuid4(k)` is the k-th identifier drawn. */
  ghost predicate Injective(uuid4: nat -> Uid)
  {
    forall i: nat, j: nat :: i != j ==> uuid4(i) != uuid4(j)
  }
}
