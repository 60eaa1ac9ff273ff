/** The preference merge of `extract_preferences` in app.py: the completion's reply, parsed
    as JSON, updates the user's cooking style, expertise level and dietary restrictions.

    The completion call is a parameter: it failed, or it replied with content that either
    parses as JSON or does not. The preferences are a dictionary held by a
    `PreferenceStore`, updated in place field by field. */
module Preferences {
  import opened PyJson

  const CookingStyle: string := "cooking_style"
  const ExpertiseLevel: string := "expertise_level"
  const DietaryRestrictions: string := "dietary_restrictions"

  /** The preferences a session starts with. */
  const Defaults: map<string, Json> := map[
    CookingStyle := JStr("Bangladeshi"),
    ExpertiseLevel := JStr("Intermediate"),
    DietaryRestrictions := JArr([]),
    "spice_level" := JStr("Medium"),
    "serving_size" := JStr("4-6 people")
  ]

  /** What the completion call gives: an exception, or a reply whose content parses as JSON
      (`Some`) or does not (`None`, `json.loads` raising). */
  datatype Completion = CallFailed | Replied(parsed: Option<Json>)

  /** `key in prefs and prefs[key]`: the value when the key is there with a truthy value,
      None when the test is false, or the exception the test raises. */
  function Lookup(parsed: Json, key: string): (r: Result<Option<Json>>)
    ensures parsed.JObj? ==> r.Ok?
    ensures parsed.JObj? ==>
      (r.value.Some? <==> key in parsed.fields && Truthy(parsed.fields[key]))
    ensures r.Ok? && r.value.Some? ==> parsed.JObj? && r.value.value == parsed.fields[key] && Truthy(r.value.value)
  {
    match Contains(key, parsed)
    case Raised(e) => Raised(e)
    case Ok(present) =>
      if !present then Ok(None)
      else match GetItem(parsed, key)
        case Raised(e) => Raised(e)
        case Ok(v) => if Truthy(v) then Ok(Some(v)) else Ok(None)
  }

  /** `set(store["dietary_restrictions"]).union(set(extracted))`. */
  function Union(store: map<string, Json>, extracted: Json): (r: Result<set<Json>>)
    ensures r.Ok? <==>
      DietaryRestrictions in store && ToSet(store[DietaryRestrictions]).Ok? && ToSet(extracted).Ok?
    ensures r.Ok? ==> r.value == ToSet(store[DietaryRestrictions]).value + ToSet(extracted).value
  {
    if DietaryRestrictions !in store then Raised(KeyError)
    else match ToSet(store[DietaryRestrictions])
      case Raised(e) => Raised(e)
      case Ok(current) =>
        match ToSet(extracted)
        case Raised(e) => Raised(e)
        case Ok(added) => Ok(current + added)
  }

  /** The assignments the merge makes, in order (None: that field is not assigned), and
      whether an exception ends it, in which case the assignments listed are those made
      before it. */
  datatype Merge = Merge(style: Option<Json>, level: Option<Json>, dietary: Option<set<Json>>, failed: bool)
  {
    /** The `updated` flag: at least one field was assigned. */
    predicate Assigns() {
      style.Some? || level.Some? || dietary.Some?
    }
  }

  /** The three steps of the merge on a parsed reply. */
  function MergeParsed(store: map<string, Json>, parsed: Json): (r: Merge)
    ensures r.dietary.Some? ==> !r.failed
  {
    match Lookup(parsed, CookingStyle)
    case Raised(_) => Merge(None, None, None, true)
    case Ok(style) =>
      match Lookup(parsed, ExpertiseLevel)
      case Raised(_) => Merge(style, None, None, true)
      case Ok(level) =>
        match Lookup(parsed, DietaryRestrictions)
        case Raised(_) => Merge(style, level, None, true)
        case Ok(None) => Merge(style, level, None, false)
        case Ok(Some(extracted)) =>
          match Union(store, extracted)
          case Raised(_) => Merge(style, level, None, true)
          case Ok(union) => Merge(style, level, Some(union), false)
  }

  /** The merge for a completion: a failed call or a reply that is not JSON assigns nothing. */
  function MergeReply(store: map<string, Json>, reply: Completion): Merge {
    match reply
    case CallFailed => Merge(None, None, None, true)
    case Replied(None) => Merge(None, None, None, true)
    case Replied(Some(parsed)) => MergeParsed(store, parsed)
  }

  /** `key` holds `value` after the assignment, or, when there is none, is as it was. */
  ghost predicate Assigned(before: map<string, Json>, key: string, value: Option<Json>, after: map<string, Json>) {
    match value
    case Some(v) => key in after && after[key] == v
    case None => (key in after <==> key in before) && (key in before ==> after[key] == before[key])
  }

  /** No element occurs twice. */
  predicate Distinct<T(==)>(xs: seq<T>) {
    forall i, j :: 0 <= i < j < |xs| ==> xs[i] != xs[j]
  }

  /** `list(s)`: a list holding each element of `s` once, in an unspecified order. */
  ghost predicate ListOf(v: Json, s: set<Json>) {
    v.JArr? && Distinct(v.items) && (set x | x in v.items) == s
  }

  /** The dietary restrictions hold the list of the union, or, when not assigned, are as
      they were. */
  ghost predicate DietaryAssigned(before: map<string, Json>, union: Option<set<Json>>, after: map<string, Json>) {
    match union
    case Some(s) => DietaryRestrictions in after && ListOf(after[DietaryRestrictions], s)
    case None =>
      (DietaryRestrictions in after <==> DietaryRestrictions in before)
      && (DietaryRestrictions in before ==> after[DietaryRestrictions] == before[DietaryRestrictions])
  }

  /** `after` is `before` with the assignments of `m`, and no other key touched. */
  ghost predicate Applied(before: map<string, Json>, m: Merge, after: map<string, Json>) {
    && (forall k :: k != CookingStyle && k != ExpertiseLevel && k != DietaryRestrictions ==>
          (k in after <==> k in before) && (k in before ==> after[k] == before[k]))
    && Assigned(before, CookingStyle, m.style, after)
    && Assigned(before, ExpertiseLevel, m.level, after)
    && DietaryAssigned(before, m.dietary, after)
  }

  /** `list(s)`, one element at a time. */
  method SetToList(s: set<Json>) returns (xs: seq<Json>)
    ensures Distinct(xs) && (set x | x in xs) == s
  {
    xs := [];
    var rest := s;
    while rest != {}
      invariant rest <= s
      invariant (set x | x in xs) + rest == s
      invariant forall x :: x in xs ==> x !in rest
      invariant Distinct(xs)
      decreases |rest|
    {
      var x :| x in rest;
      xs := xs + [x];
      rest := rest - {x};
    }
  }

  /** The user's preferences. */
  class PreferenceStore {
    var prefs: map<string, Json>

    /** A session's preferences before any update. */
    constructor ()
      ensures prefs == Defaults
    {
      prefs := Defaults;
    }

    /** `extract_preferences` as written: each field is assigned as soon as its test
        passes, and an exception later in the merge returns False without undoing the
        assignments already made. */
    method ExtractPreferences(reply: Completion) returns (updated: bool)
      modifies this
      ensures Applied(old(prefs), MergeReply(old(prefs), reply), prefs)
      ensures var m := MergeReply(old(prefs), reply); updated == (!m.failed && m.Assigns())
    {
      if reply.CallFailed? || reply.parsed.None? {
        return false;
      }
      var parsed := reply.parsed.value;
      updated := false;
      var style := Lookup(parsed, CookingStyle);
      if style.Raised? {
        return false;
      }
      if style.value.Some? {
        prefs := prefs[CookingStyle := style.value.value];
        updated := true;
      }
      var level := Lookup(parsed, ExpertiseLevel);
      if level.Raised? {
        return false;
      }
      if level.value.Some? {
        prefs := prefs[ExpertiseLevel := level.value.value];
        updated := true;
      }
      var dietary := Lookup(parsed, DietaryRestrictions);
      if dietary.Raised? {
        return false;
      }
      if dietary.value.Some? {
        if DietaryRestrictions !in prefs {
          return false;
        }
        var current := ToSet(prefs[DietaryRestrictions]);
        if current.Raised? {
          return false;
        }
        var added := ToSet(dietary.value.value);
        if added.Raised? {
          return false;
        }
        var list := SetToList(current.value + added.value);
        prefs := prefs[DietaryRestrictions := JArr(list)];
        updated := true;
      }
      return updated;
    }

    /** `extract_preferences` with the merge made all or nothing: the new values are
        computed first and assigned only when no exception occurs, so False always means
        the preferences are untouched. */
    method ExtractPreferencesAtomic(reply: Completion) returns (updated: bool)
      modifies this
      ensures var m := MergeReply(old(prefs), reply);
        if m.failed then prefs == old(prefs) else Applied(old(prefs), m, prefs)
      ensures var m := MergeReply(old(prefs), reply); updated == (!m.failed && m.Assigns())
      ensures !updated ==> prefs == old(prefs)
    {
      if reply.CallFailed? || reply.parsed.None? {
        return false;
      }
      var parsed := reply.parsed.value;
      var style := Lookup(parsed, CookingStyle);
      if style.Raised? {
        return false;
      }
      var level := Lookup(parsed, ExpertiseLevel);
      if level.Raised? {
        return false;
      }
      var dietary := Lookup(parsed, DietaryRestrictions);
      if dietary.Raised? {
        return false;
      }
      var list: seq<Json> := [];
      if dietary.value.Some? {
        var union := Union(prefs, dietary.value.value);
        if union.Raised? {
          return false;
        }
        list := SetToList(union.value);
      }
      updated := false;
      if style.value.Some? {
        prefs := prefs[CookingStyle := style.value.value];
        updated := true;
      }
      if level.value.Some? {
        prefs := prefs[ExpertiseLevel := level.value.value];
        updated := true;
      }
      if dietary.value.Some? {
        prefs := prefs[DietaryRestrictions := JArr(list)];
        updated := true;
      }
    }
  }

  // ---------------------------------------------------------------- properties

  /** A failed completion call, or a reply that is not JSON, assigns nothing and reports
      no update. */
  lemma FailedReplyAssignsNothing(store: map<string, Json>, reply: Completion)
    requires reply.CallFailed? || reply.parsed.None?
    ensures var m := MergeReply(store, reply); m.failed && !m.Assigns()
  {
  }

  /** For a JSON object, cooking style and expertise level are assigned exactly when the
      object has the key with a non-empty (truthy) value, and then take that value. */
  lemma ScalarFieldsNeedNonEmptyValue(store: map<string, Json>, fields: map<string, Json>)
    ensures var m := MergeParsed(store, JObj(fields));
      && (m.style.Some? <==> CookingStyle in fields && Truthy(fields[CookingStyle]))
      && (m.style.Some? ==> m.style.value == fields[CookingStyle])
      && (m.level.Some? <==> ExpertiseLevel in fields && Truthy(fields[ExpertiseLevel]))
      && (m.level.Some? ==> m.level.value == fields[ExpertiseLevel])
  {
    assert Lookup(JObj(fields), CookingStyle).Ok?;
    assert Lookup(JObj(fields), ExpertiseLevel).Ok?;
  }

  /** For a JSON object, the merge fails exactly when it reaches the dietary restrictions
      and cannot form the union: the stored list is missing or not a set of hashable
      values, or the extracted value is not. */
  lemma ObjectFailsOnlyAtUnion(store: map<string, Json>, fields: map<string, Json>)
    ensures MergeParsed(store, JObj(fields)).failed <==>
      DietaryRestrictions in fields && Truthy(fields[DietaryRestrictions])
      && Union(store, fields[DietaryRestrictions]).Raised?
  {
    assert Lookup(JObj(fields), CookingStyle).Ok?;
    assert Lookup(JObj(fields), ExpertiseLevel).Ok?;
    assert Lookup(JObj(fields), DietaryRestrictions).Ok?;
  }

  /** The dietary restrictions, when assigned, become the union of the stored and the
      extracted ones: every old entry is kept, every extracted one is added. */
  lemma DietaryIsUnion(store: map<string, Json>, parsed: Json)
    requires MergeParsed(store, parsed).dietary.Some?
    ensures var s := MergeParsed(store, parsed).dietary.value;
      && DietaryRestrictions in store && parsed.JObj? && DietaryRestrictions in parsed.fields
      && s == ToSet(store[DietaryRestrictions]).value + ToSet(parsed.fields[DietaryRestrictions]).value
      && ToSet(store[DietaryRestrictions]).value <= s
  {
    var style := Lookup(parsed, CookingStyle);
    var level := Lookup(parsed, ExpertiseLevel);
    var dietary := Lookup(parsed, DietaryRestrictions);
    assert style.Ok? && level.Ok? && dietary.Ok? && dietary.value.Some?;
  }

  /** A stored list and an extracted list: once merged, the stored list has each entry of
      either list exactly once. */
  lemma StoredListIsUnion(before: map<string, Json>, m: Merge, after: map<string, Json>,
                          olds: seq<Json>, news: seq<Json>)
    requires Applied(before, m, after)
    requires ToSet(JArr(olds)).Ok? && ToSet(JArr(news)).Ok?
    requires m.dietary == Some(ToSet(JArr(olds)).value + ToSet(JArr(news)).value)
    ensures DietaryRestrictions in after && after[DietaryRestrictions].JArr?
    ensures var xs := after[DietaryRestrictions].items;
      Distinct(xs) && forall x :: x in xs <==> x in olds || x in news
  {
    var xs := after[DietaryRestrictions].items;
    var s := m.dietary.value;
    assert (set y | y in xs) == s;
    assert s == (set y | y in olds) + (set y | y in news);
    forall x ensures x in xs <==> x in olds || x in news {
      assert x in xs <==> x in (set y | y in xs);
      assert x in olds <==> x in (set y | y in olds);
      assert x in news <==> x in (set y | y in news);
      assert x in s <==> x in (set y | y in olds) || x in (set y | y in news);
    }
  }

  /** The reply that shows the difference: a cooking style and a dietary restriction that is
      a number. `set(5)` raises, so the merge as written returns False, but the cooking
      style has already been changed. */
  lemma PartialUpdateReportsFalse(after: map<string, Json>)
    requires Applied(Defaults, MergeReply(Defaults, Replied(Some(ItalianWithNumber))), after)
    ensures MergeReply(Defaults, Replied(Some(ItalianWithNumber))).failed
    ensures after[CookingStyle] == JStr("Italian") != Defaults[CookingStyle]
  {
    var fields := ItalianWithNumber.fields;
    assert Lookup(ItalianWithNumber, CookingStyle) == Ok(Some(JStr("Italian")));
    assert Lookup(ItalianWithNumber, ExpertiseLevel) == Ok(None);
    assert Lookup(ItalianWithNumber, DietaryRestrictions) == Ok(Some(JNum(5.0)));
    assert ToSet(JNum(5.0)).Raised?;
  }

  const ItalianWithNumber: Json := JObj(map[CookingStyle := JStr("Italian"), DietaryRestrictions := JNum(5.0)])
}
