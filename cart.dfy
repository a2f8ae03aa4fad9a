/** The cart hook: the product ids kept in the "cart" cookie, the two
    mutations that rewrite the cookie (adding an id, and raising or lowering
    the quantity of one), and the reconciliation that turns the id list into
    cart lines by fetching every distinct product once.

    The hook's state is the cookie text and the two pieces of component
    state, `carts` and `loading`. The id list itself is not stored: it is
    read from the cookie whenever it is needed (`ProductIds`). */
module Cart {
  import opened Wrappers
  import opened Json
  import opened CartCookie
  import IdList

  /** A product as the product service returns it. */
  datatype Product = Product(id: string, name: string, price: int, explanation: string, thumbnail: string)

  /** A cart line: a product and its quantity. The quantity is absent (the
      JavaScript `undefined`) when it is looked up under a key the map does
      not hold. */
  datatype CartEntry = CartEntry(product: Product, count: Option<nat>)

  datatype Mode = Increase | Decrease

  /** What a mutation does with the cookie: write a new list, leave the
      cookie alone, or throw a TypeError before writing anything. */
  datatype Step = Write(list: seq<Value>) | Unchanged | TypeError

  /** How one `getProduct` call settles: rejected, or resolved with a body
      that is a product, or a falsy body (`None`). */
  datatype Fetched = Rejected | Resolved(body: Option<Product>)

  /** How a reconciliation ends.
      - Idle: the list is falsy or has a falsy length; nothing is fetched.
      - Threw: the list is a non-empty string or an object with a truthy
        `length`, which have no `reduce`.
      - Loaded: every fetch resolved; the new cart lines.
      - Failed: some fetch was rejected.
      - Unsupported: a non-empty array holding a value that is not a string. */
  datatype Outcome = Idle | Threw | Loaded(entries: seq<CartEntry>) | Failed | Unsupported

  // ------------------------------------------------------ JavaScript values

  /** The one-character strings that spreading a string yields. */
  function Chars(s: string): (items: seq<Value>)
    ensures |items| == |s|
    ensures forall i | 0 <= i < |s| :: items[i] == Str([s[i]])
  {
    seq(|s|, i requires 0 <= i < |s| => Str([s[i]]))
  }

  /** `[...v]`: the elements of an iterable value; `None` where spreading
      throws a TypeError (null, booleans, numbers and plain objects are not
      iterable). */
  function Spread(v: Value): (r: Option<seq<Value>>)
    ensures r.Some? <==> v.Arr? || v.Str?
  {
    match v
    case Arr(items) => Some(items)
    case Str(s) => Some(Chars(s))
    case _ => None
  }

  /** `t` occurs in `s` at position `i`. */
  predicate OccursAt(s: string, t: string, i: nat) {
    i + |t| <= |s| && s[i..i + |t|] == t
  }

  /** String.prototype.indexOf: the first position at which `t` occurs in
      `s`, or -1. The empty string occurs at position 0 of every string. */
  function IndexOfText(s: string, t: string): (r: int)
    ensures -1 <= r <= |s|
    ensures r >= 0 ==> OccursAt(s, t, r)
    ensures r >= 0 ==> forall i: nat | i < r :: !OccursAt(s, t, i)
    ensures r == -1 ==> forall i: nat :: !OccursAt(s, t, i)
  {
    if |t| > |s| then -1
    else if s[..|t|] == t then 0
    else
      var j := IndexOfText(s[1..], t);
      assert forall i: nat | 1 <= i :: OccursAt(s, t, i) == OccursAt(s[1..], t, i - 1) by {
        forall i: nat | 1 <= i
          ensures OccursAt(s, t, i) == OccursAt(s[1..], t, i - 1)
        {
          if i + |t| <= |s| {
            assert s[1..][i - 1..] == s[i..];
            assert s[1..][i - 1..i - 1 + |t|] == s[1..][i - 1..][..|t|];
            assert s[i..i + |t|] == s[i..][..|t|];
          }
        }
      }
      if j == -1 then -1 else j + 1
  }

  /** A JSON number is zero (and so falsy) when all the digits of its
      mantissa are zeros. */
  predicate IsZeroLexeme(lexeme: string) {
    forall i | 0 <= i < |lexeme| ::
      (forall j | 0 <= j < i :: lexeme[j] != 'e' && lexeme[j] != 'E') && IsDigit(lexeme[i]) ==> lexeme[i] == '0'
  }

  /** JavaScript truthiness of a parsed value. */
  predicate Truthy(v: Value) {
    match v
    case Null => false
    case Bool(b) => b
    case Num(lexeme) => !IsZeroLexeme(lexeme)
    case Str(s) => s != []
    case Arr(_) => true
    case Obj(_) => true
  }

  /** The value of the member `key` that JSON.parse keeps: the last one. */
  function Lookup(members: seq<Member>, key: string): (r: Option<Value>)
    ensures r.Some? ==> exists i | 0 <= i < |members| ::
      members[i] == Member(key, r.value) && forall j | i < j < |members| :: members[j].key != key
    ensures r.None? <==> forall i | 0 <= i < |members| :: members[i].key != key
  {
    if members == [] then None
    else
      var last := members[|members| - 1];
      if last.key == key then Some(last.value)
      else Lookup(members[..|members| - 1], key)
  }

  /** Whether `v.length` is truthy. Arrays and strings have their length
      (a string is empty exactly when its UTF-16 length is 0); a parsed
      object has a `length` only as a member; null, booleans and numbers
      have none. */
  predicate HasTruthyLength(v: Value) {
    match v
    case Arr(items) => items != []
    case Str(s) => s != []
    case Obj(members) => Lookup(members, "length").Some? && Truthy(Lookup(members, "length").value)
    case _ => false
  }

  // -------------------------------------------------------------- mutations

  /** `addCarts(id)`: the list with `id` appended. */
  function AddCartsStep(ids: Value, id: string): (step: Step)
    ensures step.TypeError? <==> !(ids.Arr? || ids.Str?)
    ensures (ids.Arr? || ids.Str?) ==> step == Write(Spread(ids).value + [Str(id)])
  {
    match Spread(ids)
    case None => TypeError
    case Some(items) => Write(items + [Str(id)])
  }

  /** `changeCount` once the position of the id is known: nothing when it
      is absent; for a decrease the copy without that position, written only
      when the id still occurs in it; for an increase the list with the id
      appended. A position past the end of the copy (an empty id in an empty
      string) removes nothing. */
  function ListChange(items: seq<Value>, index: int, id: string, mode: Mode): (step: Step)
    requires index >= -1
    ensures !step.TypeError?
  {
    if index == -1 then Unchanged
    else if mode == Decrease then
      var temp := if index < |items| then IdList.RemoveAt(items, index) else items;
      if Str(id) in temp then Write(temp) else Unchanged
    else Write(items + [Str(id)])
  }

  /** `changeCount(id, mode)`. An array is searched by strict equality, a
      string for `id` as a substring; other values have no `indexOf`. */
  function ChangeCountStep(ids: Value, id: string, mode: Mode): (step: Step)
    ensures step.TypeError? <==> !(ids.Arr? || ids.Str?)
  {
    match ids
    case Arr(items) => ListChange(items, IdList.IndexOf(items, Str(id)), id, mode)
    case Str(s) => ListChange(Chars(s), IndexOfText(s, id), id, mode)
    case _ => TypeError
  }

  /** The cookie after a step. */
  function Written(step: Step, cookie: Option<string>): Option<string> {
    match step
    case Write(list) => Some(EncodeCookie(Arr(list)))
    case _ => cookie
  }

  // ------------------------------------------------------- reconciliation

  /** The count looked up for a fetched product: `requestIds.get(id || 0)`.
      An empty id is falsy, so the lookup is made under the number 0, which
      no string-keyed entry matches. */
  function CountOf(counts: map<string, nat>, id: string): (r: Option<nat>)
    ensures r.Some? <==> id != "" && id in counts
  {
    if id == "" then None
    else if id in counts then Some(counts[id])
    else None
  }

  /** The fetch issued for every key, in key order. */
  function Responses(keys: seq<string>, fetch: string -> Fetched): (rs: seq<Fetched>)
    ensures |rs| == |keys|
    ensures forall i | 0 <= i < |keys| :: rs[i] == fetch(keys[i])
  {
    seq(|keys|, i requires 0 <= i < |keys| => fetch(keys[i]))
  }

  /** The `.map` and `.filter` over the resolved bodies: one line per
      product, falsy bodies dropped, in response order. */
  function Entries(responses: seq<Fetched>, counts: map<string, nat>): (entries: seq<CartEntry>)
    requires forall i | 0 <= i < |responses| :: responses[i].Resolved?
    ensures |entries| <= |responses|
  {
    if responses == [] then []
    else
      var last := responses[|responses| - 1];
      Entries(responses[..|responses| - 1], counts) +
        match last.body
        case None => []
        case Some(p) => [CartEntry(p, CountOf(counts, p.id))]
  }

  /** Promise.all: the lines when every response resolved, and a failure as
      soon as one is rejected. */
  function Settle(responses: seq<Fetched>, counts: map<string, nat>): (o: Outcome)
    ensures o.Loaded? || o.Failed?
    ensures o.Failed? <==> exists i | 0 <= i < |responses| :: responses[i].Rejected?
  {
    if forall i | 0 <= i < |responses| :: responses[i].Resolved? then Loaded(Entries(responses, counts))
    else Failed
  }

  /** The ids the reconciliation fetches, in the order it fetches them. */
  function Requests(ids: Value): seq<string> {
    if ids.Arr? && ids.items != [] && AsStrings(ids.items).Some? then
      IdList.Distinct(AsStrings(ids.items).value)
    else []
  }

  /** How the reconciliation of `ids` ends, given what each fetch settles to. */
  function ReconcileOutcome(ids: Value, fetch: string -> Fetched): Outcome {
    if !(Truthy(ids) && HasTruthyLength(ids)) then Idle
    else if !ids.Arr? then Threw
    else match AsStrings(ids.items)
      case None => Unsupported
      case Some(list) =>
        Settle(Responses(IdList.Distinct(list), fetch), IdList.CountMap(list))
  }

  /** The `forEach` that calls `getProduct` once per key, in key order,
      and pushes each pending result onto the request list. */
  method IssueRequests(keys: seq<string>, fetch: string -> Fetched) returns (requested: seq<string>, responses: seq<Fetched>)
    ensures requested == keys
    ensures responses == Responses(keys, fetch)
  {
    requested, responses := [], [];
    var i := 0;
    while i < |keys|
      invariant 0 <= i <= |keys|
      invariant requested == keys[..i]
      invariant |responses| == i
      invariant forall j | 0 <= j < i :: responses[j] == fetch(keys[j])
    {
      requested := requested + [keys[i]];
      responses := responses + [fetch(keys[i])];
      i := i + 1;
    }
    assert requested == keys;
  }

  // ------------------------------------------------------------------ hook

  class CartHook {
    /** The "cart" cookie; `None` when it is not set. */
    var cookie: Option<string>
    var carts: seq<CartEntry>
    var loading: bool

    /** The first render: no cart lines yet, loading. */
    constructor(initial: Option<string>)
      ensures cookie == initial && carts == [] && loading
    {
      cookie := initial;
      carts := [];
      loading := true;
    }

    /** The memoised `productIds`. */
    function ProductIds(): Value
      reads this
    {
      DecodeCookie(cookie)
    }

    /** `addCarts(id)`. Returns whether it threw. */
    method AddCarts(id: string) returns (threw: bool)
      modifies this`cookie
      ensures threw == AddCartsStep(old(ProductIds()), id).TypeError?
      ensures cookie == Written(AddCartsStep(old(ProductIds()), id), old(cookie))
    {
      var ids := ProductIds();
      var spread := Spread(ids);
      if spread.None? {
        return true;
      }
      var next := spread.value + [Str(id)];
      cookie := Some(EncodeCookie(Arr(next)));
      threw := false;
    }

    /** `changeCount(id, mode)`. Returns whether it threw. */
    method ChangeCount(id: string, mode: Mode) returns (threw: bool)
      modifies this`cookie
      ensures threw == ChangeCountStep(old(ProductIds()), id, mode).TypeError?
      ensures cookie == Written(ChangeCountStep(old(ProductIds()), id, mode), old(cookie))
    {
      var ids := ProductIds();
      if !(ids.Arr? || ids.Str?) {
        return true;
      }
      threw := false;
      var items := if ids.Arr? then ids.items else Chars(ids.s);
      var index := if ids.Arr? then IdList.IndexOf(items, Str(id)) else IndexOfText(ids.s, id);
      if index == -1 {
        return;
      }
      if mode == Decrease {
        var temp := IdList.SpliceOne(items, index);
        if Str(id) !in temp {
          return;
        }
        cookie := Some(EncodeCookie(Arr(temp)));
      }
      if mode == Increase {
        cookie := Some(EncodeCookie(Arr(items + [Str(id)])));
      }
    }

    /** The effect that runs when `productIds` changes. `fetch` stands for
        `getProduct`; returns the ids it was called with, in call order. */
    method Reconcile(fetch: string -> Fetched) returns (requested: seq<string>, outcome: Outcome)
      modifies this`carts, this`loading
      ensures requested == Requests(old(ProductIds()))
      ensures outcome == ReconcileOutcome(old(ProductIds()), fetch)
      ensures carts == if outcome.Loaded? then outcome.entries else old(carts)
      ensures loading == outcome.Threw?
    {
      var ids := ProductIds();
      requested := [];
      if !(Truthy(ids) && HasTruthyLength(ids)) {
        loading := false;
        return requested, Idle;
      }
      loading := true;
      if !ids.Arr? {
        return requested, Threw;
      }
      var list := AsStrings(ids.items);
      if list.None? {
        loading := false;
        return requested, Unsupported;
      }
      var keys, counts := IdList.RequestIds(list.value);
      var responses;
      requested, responses := IssueRequests(keys, fetch);
      outcome := Settle(responses, counts);
      if outcome.Loaded? {
        carts := outcome.entries;
      }
      loading := false;
    }
  }
}
