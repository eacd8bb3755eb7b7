/** `Enumerable#find` with a block that compares one field of each element with a value. */
module Find {

  /** The index of the first element whose `field` is `value`, or `|s|` when there is none. */
  function FirstWith<T, K(==)>(s: seq<T>, field: T -> K, value: K): (i: nat)
    ensures i <= |s|
    ensures i < |s| ==> field(s[i]) == value
    ensures forall j :: 0 <= j < i ==> field(s[j]) != value
  {
    if |s| == 0 || field(s[0]) == value then 0 else 1 + FirstWith(s[1..], field, value)
  }

  /** Any index meeting the two ensures above is the one `FirstWith` returns. */
  lemma FirstWithIsLeast<T, K>(s: seq<T>, field: T -> K, value: K, i: nat)
    requires i <= |s| && (i < |s| ==> field(s[i]) == value)
    requires forall j :: 0 <= j < i ==> field(s[j]) != value
    ensures FirstWith(s, field, value) == i
  {
  }
}
