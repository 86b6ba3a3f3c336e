/** Definitions shared by the backend and frontend models. */
module Common {

  datatype Option<T> = None | Some(value: T) {
    function GetOr(default: T): T {
      match this
      case Some(v) => v
      case None => default
    }
  }

  /** The `code` values of the services' failure results. */
  datatype ErrorCode =
    | NotFound
    | InvalidDependency
    | AlreadyExists
    | CircularDependency
    | Forbidden
    | InvalidUser
    | AlreadyMember
    | CannotRemoveManager

  /** The `['success' => ..., 'error' => ..., 'code' => ...]` arrays the services
      return: a payload on success, a message and a code on failure. */
  datatype Outcome<T> = Success(value: T) | Failure(error: string, code: ErrorCode)

  /** The organisation roles the platform knows. Roles travel as plain strings, and
      the code compares them as strings, so an unknown role is possible. */
  const ADMIN: string := "admin"
  const PROJECT_MANAGER: string := "project_manager"
  const MEMBER: string := "member"

  /** `in_array($role, ['admin', 'project_manager'])`, the check used by every
      "manager override" in the services. */
  predicate IsManagerRole(role: string) {
    role == ADMIN || role == PROJECT_MANAGER
  }

  /** PHP truthiness of a string: only "" and "0" are falsy. */
  predicate PhpTruthy(s: string) {
    s != "" && s != "0"
  }

  /** PHP truthiness of an optional string (a missing value or null is falsy). */
  predicate PhpTruthyOpt(s: Option<string>) {
    s.Some? && PhpTruthy(s.value)
  }

  /** JavaScript truthiness of a nullable string: null and "" are falsy, every other
      string (including "0") is truthy. */
  predicate JsTruthyOpt(s: Option<string>) {
    s.Some? && s.value != ""
  }

  /** `Array.prototype.filter`: the elements that satisfy `keep`, in their order. */
  function Filter<T(!new)>(s: seq<T>, keep: T -> bool): (r: seq<T>)
    ensures |r| <= |s|
    ensures forall x :: x in r <==> x in s && keep(x)
  {
    if s == [] then []
    else
      var rest := Filter(s[1..], keep);
      assert s == [s[0]] + s[1..];
      if keep(s[0]) then [s[0]] + rest else rest
  }

  /** Filtering distributes over concatenation, so the relative order of the kept
      elements is the order they had. */
  lemma {:induction false} FilterAppend<T(!new)>(a: seq<T>, b: seq<T>, keep: T -> bool)
    ensures Filter(a + b, keep) == Filter(a, keep) + Filter(b, keep)
  {
    if a == [] {
      assert a + b == b;
    } else {
      assert (a + b)[0] == a[0];
      assert (a + b)[1..] == a[1..] + b;
      FilterAppend(a[1..], b, keep);
      assert Filter(a + b, keep) == (if keep(a[0]) then [a[0]] else []) + Filter(a[1..] + b, keep);
    }
  }

  /** Two predicates that agree on every element filter alike. */
  lemma {:induction false} FilterAgrees<T(!new)>(s: seq<T>, p: T -> bool, q: T -> bool)
    requires forall i :: 0 <= i < |s| ==> p(s[i]) == q(s[i])
    ensures Filter(s, p) == Filter(s, q)
  {
    if s != [] {
      FilterAgrees(s[1..], p, q);
    }
  }

  /** Filtering keeps everything when every element passes, and nothing when none does. */
  lemma {:induction false} FilterAllOrNone<T(!new)>(s: seq<T>, keep: T -> bool)
    ensures (forall i :: 0 <= i < |s| ==> keep(s[i])) ==> Filter(s, keep) == s
    ensures (forall i :: 0 <= i < |s| ==> !keep(s[i])) ==> Filter(s, keep) == []
  {
    if s != [] {
      FilterAllOrNone(s[1..], keep);
      assert forall i :: 0 <= i < |s| - 1 ==> s[1..][i] == s[i + 1];
    }
  }

  /** Filtering twice with the same predicate changes nothing the second time. */
  lemma {:induction false} FilterIdempotent<T(!new)>(s: seq<T>, keep: T -> bool)
    ensures Filter(Filter(s, keep), keep) == Filter(s, keep)
  {
    if s != [] {
      FilterIdempotent(s[1..], keep);
    }
  }

  /** Filtering removes something exactly when some element fails `keep`. */
  lemma {:induction false} FilterShrinks<T(!new)>(s: seq<T>, keep: T -> bool)
    ensures |Filter(s, keep)| < |s| <==> exists x :: x in s && !keep(x)
  {
    if s != [] {
      FilterShrinks(s[1..], keep);
      assert s == [s[0]] + s[1..];
      if keep(s[0]) {
        assert forall x :: x in s && !keep(x) ==> x in s[1..];
      }
    }
  }

  /** `Array.prototype.findIndex`: the first index whose element satisfies `p`, or -1. */
  function FindIndex<T>(s: seq<T>, p: T -> bool): (r: int)
    ensures -1 <= r < |s|
    ensures r == -1 <==> forall i :: 0 <= i < |s| ==> !p(s[i])
    ensures r != -1 ==> p(s[r]) && forall i :: 0 <= i < r ==> !p(s[i])
  {
    if s == [] then -1
    else if p(s[0]) then 0
    else
      var k := FindIndex(s[1..], p);
      if k == -1 then -1 else k + 1
  }

  /** `const i = s.findIndex(p); if (i !== -1) s[i] = x`: the first element that
      satisfies `p` becomes `x`; a sequence with no such element is unchanged. */
  function ReplaceFirst<T>(s: seq<T>, p: T -> bool, x: T): (r: seq<T>)
    ensures |r| == |s|
    ensures FindIndex(s, p) == -1 ==> r == s
    ensures FindIndex(s, p) != -1 ==> r[FindIndex(s, p)] == x
    ensures forall i :: 0 <= i < |s| && i != FindIndex(s, p) ==> r[i] == s[i]
  {
    var i := FindIndex(s, p);
    if i == -1 then s else s[i := x]
  }

  /** `if (current.value?.id === id) current.value = x`: the open entry becomes `x`
      only when there is one and it satisfies `matches`; otherwise it is kept. */
  function ReplaceIfCurrent<T>(current: Option<T>, matches: T -> bool, updated: T): (r: Option<T>)
    ensures current.Some? && matches(current.value) ==> r == Some(updated)
    ensures !(current.Some? && matches(current.value)) ==> r == current
    ensures r.None? <==> current.None?
  {
    if current.Some? && matches(current.value) then Some(updated) else current
  }

  /** An answer that itself matches replaces a matching open entry once and for
      all: applying it again changes nothing. */
  lemma ReplaceIfCurrentIdempotent<T>(current: Option<T>, matches: T -> bool, updated: T)
    requires matches(updated)
    ensures ReplaceIfCurrent(ReplaceIfCurrent(current, matches, updated), matches, updated)
         == ReplaceIfCurrent(current, matches, updated)
  {
  }

  /** Replacing with an element that itself satisfies `p` a second time changes
      nothing more: the first match is then the element just written. */
  lemma ReplaceFirstIdempotent<T>(s: seq<T>, p: T -> bool, x: T)
    requires p(x)
    ensures ReplaceFirst(ReplaceFirst(s, p, x), p, x) == ReplaceFirst(s, p, x)
  {
    var r := ReplaceFirst(s, p, x);
    var i := FindIndex(s, p);
    if i != -1 {
      assert forall j :: 0 <= j < i ==> r[j] == s[j];
      FindIndexOfFirst(r, p, i);
    }
  }

  /** An index that satisfies `p` with none before it is what `FindIndex` finds. */
  lemma {:induction false} FindIndexOfFirst<T>(s: seq<T>, p: T -> bool, i: nat)
    requires i < |s| && p(s[i])
    requires forall j :: 0 <= j < i ==> !p(s[j])
    ensures FindIndex(s, p) == i
    decreases i
  {
    if i > 0 {
      FindIndexOfFirst(s[1..], p, i - 1);
    }
  }

  /** Filtering by a predicate and by its negation splits the sequence: the two
      parts hold every element exactly as often as the sequence does. */
  lemma {:induction false} FilterPartition<T(!new)>(s: seq<T>, keep: T -> bool, drop: T -> bool)
    requires forall x :: drop(x) == !keep(x)
    ensures multiset(Filter(s, keep)) + multiset(Filter(s, drop)) == multiset(s)
    ensures |Filter(s, keep)| + |Filter(s, drop)| == |s|
  {
    if s != [] {
      FilterPartition(s[1..], keep, drop);
      assert s == [s[0]] + s[1..];
    }
  }

  /** A set of ids with no element is the empty set. */
  lemma EmptyOrInhabited(s: set<int>)
    ensures s == {} || exists x :: x in s
  {
    if forall x :: x !in s {
      assert s == {};
    }
  }

  /** No element occurs twice. */
  predicate NoDuplicates<T(==)>(s: seq<T>) {
    forall i, j :: 0 <= i < j < |s| ==> s[i] != s[j]
  }

  /** Filtering a duplicate-free sequence leaves it duplicate-free. */
  lemma {:induction false} FilterNoDuplicates<T(!new)>(s: seq<T>, keep: T -> bool)
    requires NoDuplicates(s)
    ensures NoDuplicates(Filter(s, keep))
  {
    if s != [] {
      assert NoDuplicates(s[1..]) by {
        forall i, j | 0 <= i < j < |s[1..]| ensures s[1..][i] != s[1..][j] {
          assert s[1..][i] == s[i + 1] && s[1..][j] == s[j + 1];
        }
      }
      FilterNoDuplicates(s[1..], keep);
      assert s[0] !in s[1..];
    }
  }
}
