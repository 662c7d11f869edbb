/** Facts about sequences that proofs name instead of searching for. */
module Lists {
  /** Taking one off the front of a concatenation takes it off the first part. */
  lemma FrontOfBoth<T>(a: seq<T>, b: seq<T>)
    requires a != []
    ensures (a + b)[0] == a[0] && (a + b)[1..] == a[1..] + b
  {
  }

  lemma DropOfBoth<T>(a: seq<T>, b: seq<T>, k: nat)
    requires k <= |a|
    ensures (a + b)[k..] == a[k..] + b
  {
  }

  lemma Parts<T>(s: seq<T>, k: nat)
    requires k <= |s|
    ensures s == s[..k] + s[k..]
  {
  }

  lemma Assoc<T>(a: seq<T>, b: seq<T>, c: seq<T>)
    ensures a + b + c == a + (b + c)
  {
  }

  /** The rest of a list, one further on. */
  lemma RestOfRest<T>(s: seq<T>, i: nat)
    requires i < |s|
    ensures s[i..] != [] && s[i..][0] == s[i] && s[i..][1..] == s[i + 1..]
  {
  }

  lemma PrefixItems<T>(a: seq<T>, s: seq<T>)
    requires a <= s
    ensures forall k {:trigger s[k]} | 0 <= k < |a| :: s[k] in a
  {
    assert forall k | 0 <= k < |a| :: a[k] == s[k];
  }
}
