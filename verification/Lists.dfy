/** The singly linked list of strings (list.h) and the Option datatype. */
module Lists {

  datatype Option<+T> = None | Some(value: T)

  datatype List = Nil | Cons(dir: string, next: List)

  function ToSeq(l: List): seq<string> {
    match l
    case Nil => []
    case Cons(d, n) => [d] + ToSeq(n)
  }
}
