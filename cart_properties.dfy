/** What the cart hook promises: the mutations change exactly the count of
    the id they are given, a decrease never drops the last unit of a
    product, what is written reads back as the new list, and the
    reconciliation fetches each distinct id once and yields one line per
    product with its multiplicity, or nothing at all. */
module CartProperties {
  import opened Wrappers
  import opened Json
  import opened CartCookie
  import opened Cart
  import IdList

  // ------------------------------------------- id lists as JSON values

  lemma StringsAppend(ids: seq<string>, id: string)
    ensures Strings(ids) + [Str(id)] == Strings(ids + [id])
  {
  }

  lemma StringsRemoveAt(ids: seq<string>, k: nat)
    requires k < |ids|
    ensures IdList.RemoveAt(Strings(ids), k) == Strings(IdList.RemoveAt(ids, k))
  {
  }

  lemma {:induction false} StringsIndexOf(ids: seq<string>, x: string)
    ensures IdList.IndexOf(Strings(ids), Str(x)) == IdList.IndexOf(ids, x)
  {
    if ids != [] {
      assert Strings(ids)[1..] == Strings(ids[1..]);
      StringsIndexOf(ids[1..], x);
    }
  }

  lemma {:induction false} StringsOccurrences(ids: seq<string>, x: string)
    ensures IdList.Occurrences(Strings(ids), Str(x)) == IdList.Occurrences(ids, x)
  {
    if ids != [] {
      assert Strings(ids)[..|ids| - 1] == Strings(ids[..|ids| - 1]);
      StringsOccurrences(ids[..|ids| - 1], x);
    }
  }

  // ------------------------------------------------------------ addCarts

  /** addCarts appends: the old list is kept as it was, in order, and only
      the added id gains one unit. */
  lemma AddCartsCounts(items: seq<Value>, id: string, x: Value)
    ensures AddCartsStep(Arr(items), id).Write?
    ensures AddCartsStep(Arr(items), id).list[..|items|] == items
    ensures IdList.Occurrences(AddCartsStep(Arr(items), id).list, x) ==
      IdList.Occurrences(items, x) + (if x == Str(id) then 1 else 0)
  {
    IdList.AppendCounts(items, Str(id), x);
    assert (items + [Str(id)])[..|items|] == items;
  }

  // ---------------------------------------------------------- changeCount

  /** An id that is not in the list changes nothing, in either mode. */
  lemma ChangeCountAbsent(items: seq<Value>, id: string, mode: Mode)
    requires Str(id) !in items
    ensures ChangeCountStep(Arr(items), id, mode) == Unchanged
  {
  }

  /** The same for a string read as the list: an id that occurs nowhere in
      the text changes nothing, in either mode. */
  lemma ChangeCountAbsentFromText(s: string, id: string, mode: Mode)
    requires forall i: nat :: !OccursAt(s, id, i)
    ensures ChangeCountStep(Str(s), id, mode) == Unchanged
  {
  }

  /** A decrease with at least two units removes exactly the first one:
      the count of that id goes down by one and every other count stays. */
  lemma DecreaseRemovesFirst(items: seq<Value>, id: string, x: Value)
    requires IdList.Occurrences(items, Str(id)) >= 2
    ensures IdList.IndexOf(items, Str(id)) >= 0
    ensures ChangeCountStep(Arr(items), id, Decrease) ==
      Write(IdList.RemoveAt(items, IdList.IndexOf(items, Str(id))))
    ensures IdList.Occurrences(ChangeCountStep(Arr(items), id, Decrease).list, x) ==
      IdList.Occurrences(items, x) - (if x == Str(id) then 1 else 0)
  {
    IdList.OccurrencesPositive(items, Str(id));
    var k := IdList.IndexOf(items, Str(id));
    var temp := IdList.RemoveAt(items, k);
    IdList.RemoveAtCounts(items, k, Str(id));
    IdList.OccurrencesPositive(temp, Str(id));
    IdList.RemoveAtCounts(items, k, x);
  }

  /** A decrease writes a new list exactly when the id has at least two
      units; the last unit of a product is never removed. */
  lemma DecreaseWritesIff(items: seq<Value>, id: string)
    ensures ChangeCountStep(Arr(items), id, Decrease).Write? <==> IdList.Occurrences(items, Str(id)) >= 2
  {
    IdList.OccurrencesPositive(items, Str(id));
    if Str(id) in items {
      var k := IdList.IndexOf(items, Str(id));
      IdList.RemoveAtCounts(items, k, Str(id));
      IdList.OccurrencesPositive(IdList.RemoveAt(items, k), Str(id));
    }
  }

  /** An increase of an id in the list appends one more unit of it. */
  lemma IncreaseAppends(items: seq<Value>, id: string, x: Value)
    requires Str(id) in items
    ensures ChangeCountStep(Arr(items), id, Increase) == Write(items + [Str(id)])
    ensures IdList.Occurrences(ChangeCountStep(Arr(items), id, Increase).list, x) ==
      IdList.Occurrences(items, x) + (if x == Str(id) then 1 else 0)
  {
    IdList.AppendCounts(items, Str(id), x);
  }

  /** No mutation drops an element of an array: whatever is written still
      holds every value the old list held. */
  lemma NothingDropped(items: seq<Value>, id: string, mode: Mode, y: Value)
    requires y in items
    ensures AddCartsStep(Arr(items), id).Write? && y in AddCartsStep(Arr(items), id).list
    ensures ChangeCountStep(Arr(items), id, mode).Write? ==> y in ChangeCountStep(Arr(items), id, mode).list
  {
    assert y in items + [Str(id)];
    var step := ChangeCountStep(Arr(items), id, mode);
    if step.Write? && mode == Decrease && y != Str(id) {
      var k := IdList.IndexOf(items, Str(id));
      IdList.RemoveAtCounts(items, k, y);
      IdList.OccurrencesPositive(items, y);
      IdList.OccurrencesPositive(IdList.RemoveAt(items, k), y);
    }
  }

  /** When the cookie holds a string, it is spread into one-character
      strings, so a decrease of an id that is not one character long never
      writes. */
  lemma StringDecreaseNeedsOneChar(s: string, id: string)
    requires |id| != 1
    ensures !ChangeCountStep(Str(s), id, Decrease).Write?
  {
    var items := Chars(s);
    var index := IndexOfText(s, id);
    if index != -1 && index < |items| {
      var temp := IdList.RemoveAt(items, index);
      forall i | 0 <= i < |temp|
        ensures temp[i] != Str(id)
      {
        assert temp[i] in items;
      }
    }
  }

  // ---------------------------------------- mutations through the cookie

  lemma ReadWritten(ids: seq<string>, step: Step, cookie: Option<string>)
    requires step == Write(Strings(ids))
    ensures DecodeCookie(Written(step, cookie)) == Arr(Strings(ids))
  {
    CookieRoundTrip(ids);
  }

  /** After addCarts on a cookie holding `ids`, the cookie holds `ids`
      followed by `id`. */
  lemma AddThenRead(ids: seq<string>, id: string, cookie: Option<string>)
    requires DecodeCookie(cookie) == Arr(Strings(ids))
    ensures DecodeCookie(Written(AddCartsStep(DecodeCookie(cookie), id), cookie)) == Arr(Strings(ids + [id]))
  {
    var step := AddCartsStep(DecodeCookie(cookie), id);
    assert step == Write(Strings(ids + [id])) by {
      StringsAppend(ids, id);
    }
    ReadWritten(ids + [id], step, cookie);
  }

  /** After an increase of an id the cookie holds, it holds one more unit
      of it at the end. */
  lemma IncreaseThenRead(ids: seq<string>, id: string, cookie: Option<string>)
    requires DecodeCookie(cookie) == Arr(Strings(ids))
    requires id in ids
    ensures DecodeCookie(Written(ChangeCountStep(DecodeCookie(cookie), id, Increase), cookie)) ==
      Arr(Strings(ids + [id]))
  {
    var step := ChangeCountStep(DecodeCookie(cookie), id, Increase);
    assert step == Write(Strings(ids + [id])) by {
      StringsIndexOf(ids, id);
      StringsAppend(ids, id);
    }
    ReadWritten(ids + [id], step, cookie);
  }

  /** After a decrease of an id with at least two units, the cookie holds
      the list without the first of them. */
  lemma DecreaseThenRead(ids: seq<string>, id: string, cookie: Option<string>)
    requires DecodeCookie(cookie) == Arr(Strings(ids))
    requires IdList.Occurrences(ids, id) >= 2
    ensures IdList.IndexOf(ids, id) >= 0
    ensures DecodeCookie(Written(ChangeCountStep(DecodeCookie(cookie), id, Decrease), cookie)) ==
      Arr(Strings(IdList.RemoveAt(ids, IdList.IndexOf(ids, id))))
  {
    IdList.OccurrencesPositive(ids, id);
    StringsOccurrences(ids, id);
    StringsIndexOf(ids, id);
    var k := IdList.IndexOf(ids, id);
    var step := ChangeCountStep(DecodeCookie(cookie), id, Decrease);
    assert step == Write(Strings(IdList.RemoveAt(ids, k))) by {
      DecreaseRemovesFirst(Strings(ids), id, Str(id));
      StringsRemoveAt(ids, k);
    }
    ReadWritten(IdList.RemoveAt(ids, k), step, cookie);
  }

  // ------------------------------------------------------- reconciliation

  /** The reconciliation of a list of ids fetches every distinct id exactly
      once, in order of first occurrence, and nothing else. */
  lemma RequestsOncePerId(ids: seq<string>)
    ensures var r := Requests(Arr(Strings(ids)));
      (forall i | 0 <= i < |r| :: r[i] in ids) &&
      (forall i | 0 <= i < |ids| :: ids[i] in r) &&
      (forall i, j | 0 <= i < j < |r| :: r[i] != r[j]) &&
      (forall i, j | 0 <= i < j < |r| :: IdList.IndexOf(ids, r[i]) < IdList.IndexOf(ids, r[j]))
  {
    AsStringsOfStrings(ids);
    IdList.DistinctElements(ids);
    IdList.DistinctInFirstOccurrenceOrder(ids);
  }

  /** The multiplicity map holds every id of the list with its number of
      occurrences, and these add up to the length of the list. */
  lemma MultiplicityMap(ids: seq<string>)
    ensures forall k | k in IdList.CountMap(ids) :: k in ids && IdList.CountMap(ids)[k] == IdList.Occurrences(ids, k) >= 1
    ensures forall i | 0 <= i < |ids| :: ids[i] in IdList.CountMap(ids)
    ensures IdList.SumOfCounts(IdList.Distinct(ids), IdList.CountMap(ids)) == |ids|
  {
    forall k | k in IdList.CountMap(ids)
      ensures IdList.Occurrences(ids, k) >= 1
    {
      IdList.OccurrencesPositive(ids, k);
    }
    IdList.CountsSumToLength(ids);
  }

  /** One more response: its body, when it is a product, is appended as a
      line after the lines of the earlier responses. */
  lemma EntriesSnoc(responses: seq<Fetched>, counts: map<string, nat>)
    requires responses != []
    requires forall i | 0 <= i < |responses| :: responses[i].Resolved?
    ensures var init := responses[..|responses| - 1];
      var body := responses[|responses| - 1].body;
      Entries(responses, counts) == Entries(init, counts) +
        (if body.Some? then [CartEntry(body.value, CountOf(counts, body.value.id))] else [])
  {
  }

  /** Every line is a product some response resolved with, carrying the
      count looked up under its id. */
  lemma {:induction false} EntriesFromBodies(responses: seq<Fetched>, counts: map<string, nat>)
    requires forall i | 0 <= i < |responses| :: responses[i].Resolved?
    ensures forall k | 0 <= k < |Entries(responses, counts)| :: exists i | 0 <= i < |responses| ::
      responses[i].body == Some(Entries(responses, counts)[k].product) &&
      Entries(responses, counts)[k].count == CountOf(counts, Entries(responses, counts)[k].product.id)
  {
    if responses == [] {
      assert Entries(responses, counts) == [];
    } else {
      var n := |responses| - 1;
      var init := responses[..n];
      EntriesFromBodies(init, counts);
      EntriesSnoc(responses, counts);
      var entries := Entries(responses, counts);
      var before := Entries(init, counts);
      forall k | 0 <= k < |entries|
        ensures exists i | 0 <= i < |responses| ::
          responses[i].body == Some(entries[k].product) &&
          entries[k].count == CountOf(counts, entries[k].product.id)
      {
        if k < |before| {
          assert entries[k] == before[k];
          var i :| 0 <= i < |init| && init[i].body == Some(before[k].product) &&
                   before[k].count == CountOf(counts, before[k].product.id);
          assert responses[i] == init[i];
        } else {
          assert responses[n].body == Some(entries[k].product);
        }
      }
    }
  }

  /** Every product body gives a line, carrying the count looked up under
      its id. */
  lemma {:induction false} EntriesCoverBodies(responses: seq<Fetched>, counts: map<string, nat>)
    requires forall i | 0 <= i < |responses| :: responses[i].Resolved?
    ensures forall i | 0 <= i < |responses| && responses[i].body.Some? ::
      CartEntry(responses[i].body.value, CountOf(counts, responses[i].body.value.id)) in Entries(responses, counts)
  {
    if responses != [] {
      var n := |responses| - 1;
      var init := responses[..n];
      EntriesCoverBodies(init, counts);
      EntriesSnoc(responses, counts);
      var entries := Entries(responses, counts);
      var before := Entries(init, counts);
      forall i | 0 <= i < |responses| && responses[i].body.Some?
        ensures CartEntry(responses[i].body.value, CountOf(counts, responses[i].body.value.id)) in entries
      {
        var e := CartEntry(responses[i].body.value, CountOf(counts, responses[i].body.value.id));
        if i < n {
          assert responses[i] == init[i];
          assert e in before;
        } else {
          assert entries[|entries| - 1] == e;
        }
      }
    }
  }

  /** The `.filter` keeps exactly the product bodies: every line is a
      product some response resolved with, carrying the count looked up
      under its id, and every product body gives such a line. */
  lemma EntriesContents(responses: seq<Fetched>, counts: map<string, nat>)
    requires forall i | 0 <= i < |responses| :: responses[i].Resolved?
    ensures forall k | 0 <= k < |Entries(responses, counts)| :: exists i | 0 <= i < |responses| ::
      responses[i].body == Some(Entries(responses, counts)[k].product) &&
      Entries(responses, counts)[k].count == CountOf(counts, Entries(responses, counts)[k].product.id)
    ensures forall i | 0 <= i < |responses| && responses[i].body.Some? ::
      CartEntry(responses[i].body.value, CountOf(counts, responses[i].body.value.id)) in Entries(responses, counts)
  {
    EntriesFromBodies(responses, counts);
    EntriesCoverBodies(responses, counts);
  }

  /** When every body is a product, the lines are those products, in
      response order, each with the count looked up under its id. */
  lemma {:induction false} EntriesOfProducts(responses: seq<Fetched>, counts: map<string, nat>)
    requires forall i | 0 <= i < |responses| :: responses[i].Resolved? && responses[i].body.Some?
    ensures |Entries(responses, counts)| == |responses|
    ensures forall i | 0 <= i < |responses| ::
      Entries(responses, counts)[i] == CartEntry(responses[i].body.value, CountOf(counts, responses[i].body.value.id))
  {
    if responses != [] {
      var init := responses[..|responses| - 1];
      EntriesOfProducts(init, counts);
    }
  }

  /** Every fetch resolves with the product asked for: one line per
      distinct id, in order of first occurrence, each with its number of
      occurrences as its count (none for the empty id). */
  lemma AllResolve(ids: seq<string>, fetch: string -> Fetched)
    requires ids != []
    requires forall i | 0 <= i < |ids| ::
      fetch(ids[i]).Resolved? && fetch(ids[i]).body.Some? && fetch(ids[i]).body.value.id == ids[i]
    ensures var d := IdList.Distinct(ids);
      var o := ReconcileOutcome(Arr(Strings(ids)), fetch);
      o.Loaded? && |o.entries| == |d| &&
      forall j | 0 <= j < |d| ::
        fetch(d[j]) == Resolved(Some(o.entries[j].product)) &&
        o.entries[j].count == (if d[j] == "" then None else Some(IdList.Occurrences(ids, d[j])))
  {
    AsStringsOfStrings(ids);
    IdList.DistinctElements(ids);
    var d := IdList.Distinct(ids);
    var responses := Responses(d, fetch);
    forall j | 0 <= j < |d|
      ensures responses[j].Resolved? && responses[j].body.Some? && responses[j].body.value.id == d[j]
    {
      var i :| 0 <= i < |ids| && ids[i] == d[j];
    }
    EntriesOfProducts(responses, IdList.CountMap(ids));
  }

  /** One rejected fetch and the cart lines are not replaced. */
  lemma AnyRejected(ids: seq<string>, fetch: string -> Fetched, k: string)
    requires k in ids && fetch(k).Rejected?
    ensures ReconcileOutcome(Arr(Strings(ids)), fetch) == Failed
  {
    AsStringsOfStrings(ids);
    IdList.DistinctElements(ids);
    var d := IdList.Distinct(ids);
    var i :| 0 <= i < |ids| && ids[i] == k;
    var j :| 0 <= j < |d| && d[j] == k;
    assert Responses(d, fetch)[j].Rejected?;
  }

  /** An absent or empty cookie leaves the
      reconciliation idle: nothing is fetched and loading ends. */
  lemma NoCookieIdle(raw: Option<string>, fetch: string -> Fetched)
    requires raw.None? || raw == Some("")
    ensures Requests(DecodeCookie(raw)) == []
    ensures ReconcileOutcome(DecodeCookie(raw), fetch) == Idle
  {
  }

  /** A cookie naming a single string rather than an array makes the
      reconciliation throw after loading was set. */
  lemma StringCookieThrows(s: string, fetch: string -> Fetched)
    requires s != []
    ensures Requests(Str(s)) == [] && ReconcileOutcome(Str(s), fetch) == Threw
  {
  }
}
