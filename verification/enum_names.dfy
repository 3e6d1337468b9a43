/** `Enum.Parse` of a status string returned by the service, restricted to exact,
    case-sensitive member names: a name selects its member, anything else fails. */
module EnumNames {
  import opened Wrappers

  /** The member whose name is `s`, or a failure naming the rejected text. */
  function ParseName<T(==)>(members: seq<T>, name: T -> string, s: string): (r: Result<T>)
    ensures r.Ok? ==> r.value in members && name(r.value) == s
    ensures r.Err? ==> forall x :: x in members ==> name(x) != s
  {
    if members == [] then Err("Requested value '" + s + "' was not found.")
    else if name(members[0]) == s then Ok(members[0])
    else ParseName(members[1..], name, s)
  }
}
