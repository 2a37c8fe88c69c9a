/** The booking list filter of the gateway and its case-insensitive
    parser `from`. */
module RequestStates {
  import opened Common
  import opened Text

  datatype BookingRequestState = ALL | CURRENT | PAST | FUTURE | WAITING | REJECTED

  /** Enum.name(). */
  function Name(s: BookingRequestState): (n: string)
  {
    match s
    case ALL => "ALL"
    case CURRENT => "CURRENT"
    case PAST => "PAST"
    case FUTURE => "FUTURE"
    case WAITING => "WAITING"
    case REJECTED => "REJECTED"
  }

  /** values(), in declaration order. */
  const Values: seq<BookingRequestState> := [ALL, CURRENT, PAST, FUTURE, WAITING, REJECTED]

  /** The stream of `values()` filtered by `equalsIgnoreCase`, then
      `findFirst`. */
  function FirstMatching(vs: seq<BookingRequestState>, x: string): (r: Option<BookingRequestState>)
    ensures r.Some? ==> r.value in vs && EqualsIgnoreCase(Name(r.value), x)
    ensures r.None? ==> forall k :: 0 <= k < |vs| ==> !EqualsIgnoreCase(Name(vs[k]), x)
  {
    if vs == [] then None
    else if EqualsIgnoreCase(Name(vs[0]), x) then Some(vs[0])
    else FirstMatching(vs[1..], x)
  }

  /** BookingRequestState.from: empty for null, otherwise the first
      constant whose name equals the argument ignoring case. */
  function From(x: Option<string>): (r: Option<BookingRequestState>)
  {
    if x.None? then None else FirstMatching(Values, x.value)
  }

  lemma NamesAreUpperWords(s: BookingRequestState)
    ensures IsUpperWord(Name(s))
  {
  }

  /** A string matches at most one constant's name. */
  lemma {:induction false} MatchIsUnique(x: string, s: BookingRequestState, t: BookingRequestState)
    requires EqualsIgnoreCase(Name(s), x) && EqualsIgnoreCase(Name(t), x)
    ensures s == t
  {
    NamesAreUpperWords(s);
    NamesAreUpperWords(t);
    EqualsUpperWordIffFold(Name(s), x);
    EqualsUpperWordIffFold(Name(t), x);
  }

  /** `from` of a non-null string yields `s` exactly when the string
      equals the name of `s` ignoring case; a string equal to no name
      yields empty; null yields empty. */
  lemma {:induction false} FromIffEqualsIgnoreCase(x: string, s: BookingRequestState)
    ensures From(Some(x)) == Some(s) <==> EqualsIgnoreCase(Name(s), x)
    ensures From(Some(x)) == None <==> forall t :: !EqualsIgnoreCase(Name(t), x)
    ensures From(None) == None
  {
    var r := From(Some(x));
    if r.Some? {
      if EqualsIgnoreCase(Name(s), x) {
        MatchIsUnique(x, s, r.value);
      }
    } else {
      assert s in Values;
      var k :| 0 <= k < |Values| && Values[k] == s;
    }
    if r == None {
      forall t ensures !EqualsIgnoreCase(Name(t), x) {
        assert t == Values[IndexOf(t)];
      }
    }
  }

  /** Position of a constant in `values()` (its ordinal). */
  function IndexOf(s: BookingRequestState): (k: nat)
    ensures k < |Values| && Values[k] == s
  {
    match s
    case ALL => 0
    case CURRENT => 1
    case PAST => 2
    case FUTURE => 3
    case WAITING => 4
    case REJECTED => 5
  }

  /** Round trip: parsing a constant's name gives back the constant, and
      so does its lower-case spelling. */
  lemma FromName(s: BookingRequestState)
    ensures From(Some(Name(s))) == Some(s)
    ensures From(Some(ToLower(Name(s)))) == Some(s)
  {
    var n := Name(s);
    assert EqualsIgnoreCase(n, n);
    FromIffEqualsIgnoreCase(n, s);
    NamesAreUpperWords(s);
    FoldToLowerUpperWord(n);
    EqualsUpperWordIffFold(n, ToLower(n));
    FromIffEqualsIgnoreCase(ToLower(n), s);
  }
}
