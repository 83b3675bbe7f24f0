/** `order.Status` (internal/model/order/status.go): a `uint8` enum whose values 0..6
    are named by a constant table; `ParseStatus` searches the table and `String` indexes it. */
module OrderStatus {

  /** `type Status uint8`. */
  type Status = s: int | 0 <= s < 256

  const StatusNotSupport: Status := 0
  const StatusNew: Status := 1
  const StatusRegistered: Status := 2
  const StatusProcessing: Status := 3
  const StatusInvalid: Status := 4
  const StatusProcessed: Status := 5
  const StatusWithdraw: Status := 6

  /** The number of named statuses: the length of the `supportStatus` table. */
  const Count: nat := 7

  /** `supportStatus()`: the printed name of each status, indexed by its value. */
  function Names(): (names: seq<string>)
    ensures |names| == Count
  {
    ["status NOT support", "NEW", "REGISTERED", "PROCESSING", "INVALID", "PROCESSED", "withdrawal"]
  }

  /** A status that `String` can print; indexing the table past 6 panics in Go. */
  predicate Named(s: Status) {
    s < Count
  }

  /** `Status.String`: the table entry of `s`. */
  function String(s: Status): string
    requires Named(s)
  {
    Names()[s]
  }

  /** The search loop of `ParseStatus`, from table index `i` on: the first index whose
      name equals `str`, or `StatusNew` when none does. */
  function Find(str: string, i: nat): (r: Status)
    requires i <= Count
    ensures Named(r)
    ensures (exists k :: i <= k < Count && Names()[k] == str) ==>
              i <= r && Names()[r] == str && forall k :: i <= k < r ==> Names()[k] != str
    ensures (forall k :: i <= k < Count ==> Names()[k] != str) ==> r == StatusNew
    decreases Count - i
  {
    if i == Count then StatusNew
    else if str == Names()[i] then i
    else Find(str, i + 1)
  }

  /** `ParseStatus`: the status named `str`, or `StatusNew` for a string the table lacks. */
  function ParseStatus(str: string): (r: Status)
    ensures Named(r)
    ensures str in Names() ==> String(r) == str
    ensures str !in Names() ==> r == StatusNew
  {
    Find(str, 0)
  }

  /** The seven names are pairwise distinct. */
  lemma NamesDistinct()
    ensures forall j, k :: 0 <= j < k < Count ==> Names()[j] != Names()[k]
  {
    var n := Names();
    assert n[0][0] == 's' && n[1][0] == 'N' && n[2][0] == 'R' && n[3][0] == 'P' && n[4][0] == 'I';
    assert n[5][0] == 'P' && n[6][0] == 'w';
    assert |n[3]| == 10 && |n[5]| == 9;
  }

  /** Printing then parsing gives the status back, for every named status. */
  lemma ParseString(s: Status)
    requires Named(s)
    ensures ParseStatus(String(s)) == s
  {
    NamesDistinct();
  }

  /** `String` is injective on named statuses, so comparing printed statuses compares statuses. */
  lemma StringInjective(s: Status, t: Status)
    requires Named(s) && Named(t)
    ensures String(s) == String(t) <==> s == t
  {
    NamesDistinct();
  }

  /** The test `s.String() != t.String()`: two named statuses print differently exactly
      when they are different statuses. */
  method PrintsDifferently(s: Status, t: Status) returns (differs: bool)
    requires Named(s) && Named(t)
    ensures differs <==> s != t
  {
    differs := String(s) != String(t);
    StringInjective(s, t);
  }
}
