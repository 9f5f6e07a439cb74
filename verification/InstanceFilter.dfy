/**
  The instance query filter: a list of key/values filters printed as an AND of ORs, and the
  status filter that every listing appends to the caller's own list.
 */
module InstanceFilter {
  import opened Basics
  import opened Sequences
  import opened Text

  /** The shapes the printer tells apart: a list, a mapping, anything else. */
  datatype Values = Listed(items: seq<string>) | Scalar(text: string) | Mapping

  datatype Filter = Filter(key: string, values: Values)

  const STATUSES := ["PROVISIONING", "STAGING", "RUNNING", "STOPPING",
                     "REPAIRING", "SUSPENDING", "SUSPENDED", "TERMINATED"]
  const STATUS_FILTER := Filter("status", Listed(STATUSES))

  // ---------- the printer ----------

  function JoinWith(parts: seq<string>, sep: string): string
  {
    if parts == [] then ""
    else if |parts| == 1 then parts[0]
    else parts[0] + sep + JoinWith(parts[1..], sep)
  }

  function TermTexts(key: string, values: seq<string>): seq<string>
  {
    if values == [] then [] else [key + "=" + values[0]] + TermTexts(key, values[1..])
  }

  function FullFilterString(filter: Filter): string
  {
    if filter.key != "" && filter.values.Listed? && filter.values.items != [] then
      "(" + JoinWith(TermTexts(filter.key, filter.values.items), " OR ") + ")"
    else if filter.key != "" && filter.values.Scalar? then
      "(" + filter.key + "=" + filter.values.text + ")"
    else ""
  }

  function NonEmpty(texts: seq<string>): seq<string>
  {
    if texts == [] then []
    else (if texts[0] == "" then [] else [texts[0]]) + NonEmpty(texts[1..])
  }

  function ClauseTexts(filters: seq<Filter>): seq<string>
  {
    NonEmpty(Map(FullFilterString, filters))
  }

  function Printed(filters: seq<Filter>): string
  {
    JoinWith(ClauseTexts(filters), " AND ")
  }

  lemma {:induction false} NonEmptyUpTo(texts: seq<string>, last: string)
    ensures NonEmpty(texts + [last]) == NonEmpty(texts) + (if last == "" then [] else [last])
  {
    if texts != [] {
      var head, rest := if texts[0] == "" then [] else [texts[0]], texts[1..];
      NonEmptyUpTo(rest, last);
      assert (texts + [last])[1..] == rest + [last];
      assert NonEmpty(texts + [last]) == head + NonEmpty(rest + [last]);
      assert NonEmpty(texts) == head + NonEmpty(rest);
    }
  }

  /** The text of a filter list; without any filter there is no text at all. */
  method GetFilterToParams(filters: seq<Filter>) returns (text: Option<string>)
    ensures text == if filters == [] then None else Some(Printed(filters))
  {
    if filters == [] {
      return None;
    }
    var filteringList: seq<string> := [];
    ghost var texts := Map(FullFilterString, filters);
    for i := 0 to |filters|
      invariant filteringList == NonEmpty(texts[..i])
    {
      var filterText := FullFilterString(filters[i]);
      NonEmptyUpTo(texts[..i], filterText);
      assert texts[..i + 1] == texts[..i] + [filterText];
      if filterText != "" {
        filteringList := filteringList + [filterText];
      }
    }
    assert texts[..|filters|] == texts;
    text := Some(JoinWith(filteringList, " AND "));
  }

  /** The clause texts, first filter first. */
  lemma ClauseTextsStep(filters: seq<Filter>)
    requires filters != []
    ensures var text := FullFilterString(filters[0]);
            ClauseTexts(filters) == (if text == "" then [] else [text]) + ClauseTexts(filters[1..])
  {
    assert Map(FullFilterString, filters)[1..] == Map(FullFilterString, filters[1..]);
  }

  /** The caller's filter list; `list_instances` appends to it in place. */
  class FilterList {
    var items: seq<Filter>

    constructor (items: seq<Filter>)
      ensures this.items == items
    {
      this.items := items;
    }

    method Append(filter: Filter)
      modifies this
      ensures items == old(items) + [filter]
    {
      items := items + [filter];
    }
  }

  /** The filter part of `list_instances`: the text that is sent. Null is a query without a filter list. */
  method ListInstancesFilter(filters: FilterList?) returns (text: Option<string>)
    modifies if filters == null then {} else {filters}
    ensures filters != null ==> filters.items == old(filters.items) + [STATUS_FILTER]
    ensures text == Some(Printed(if filters == null then [STATUS_FILTER] else old(filters.items) + [STATUS_FILTER]))
  {
    if filters != null {
      filters.Append(STATUS_FILTER);
      text := GetFilterToParams(filters.items);
    } else {
      text := GetFilterToParams([STATUS_FILTER]);
    }
  }

  function Repeated(filter: Filter, n: nat): seq<Filter>
  {
    if n == 0 then [] else Repeated(filter, n - 1) + [filter]
  }

  /** The caller's list after `n` listings. */
  function ItemsAfter(items: seq<Filter>, n: nat): seq<Filter>
  {
    items + Repeated(STATUS_FILTER, n)
  }

  lemma ItemsAfterStep(items: seq<Filter>, n: nat)
    ensures ItemsAfter(items, n + 1) == ItemsAfter(items, n) + [STATUS_FILTER]
  {
  }

  /** A caller that keeps one list over several listings: call number n sends n status filters. */
  method ListInstancesRepeatedly(filters: FilterList, calls: nat) returns (texts: seq<string>)
    modifies filters
    ensures filters.items == ItemsAfter(old(filters.items), calls)
    ensures |texts| == calls
    ensures forall n :: 0 <= n < calls ==> texts[n] == Printed(ItemsAfter(old(filters.items), n + 1))
  {
    texts := [];
    for n := 0 to calls
      invariant filters.items == ItemsAfter(old(filters.items), n)
      invariant |texts| == n
      invariant forall k :: 0 <= k < n ==> texts[k] == Printed(ItemsAfter(old(filters.items), k + 1))
    {
      ItemsAfterStep(old(filters.items), n);
      var text := ListInstancesFilter(filters);
      texts := texts + [text.value];
    }
  }

  // ---------- a parser for the printed text ----------

  /** `key=value` */
  datatype Term = Term(key: string, value: string)

  function ReadTerm(text: string): Option<Term>
  {
    var i := Before(text, '=');
    if i == |text| then None else Some(Term(text[..i], text[i + 1..]))
  }

  /** Terms separated by " OR "; a term ends at the first blank. */
  function ReadTerms(text: string): Option<seq<Term>>
    decreases |text|
  {
    var i := Before(text, ' ');
    if i == |text| then
      match ReadTerm(text)
      case Some(term) => Some([term])
      case None => None
    else if !StartsWith(text[i..], " OR ") then None
    else
      match (ReadTerm(text[..i]), ReadTerms(text[i + 4..]))
      case (Some(term), Some(rest)) => Some([term] + rest)
      case _ => None
  }

  /** Parenthesised clauses separated by " AND "; a clause ends at the first ")". */
  function ReadClauses(text: string): Option<seq<seq<Term>>>
    decreases |text|
  {
    if text == "" || text[0] != '(' then None
    else
      var i := Before(text, ')');
      if i == |text| then None
      else
        match ReadTerms(text[1..i])
        case None => None
        case Some(clause) =>
          var rest := text[i + 1..];
          if rest == "" then Some([clause])
          else if !StartsWith(rest, " AND ") then None
          else
            match ReadClauses(rest[5..])
            case Some(clauses) => Some([clause] + clauses)
            case None => None
  }

  function Parse(text: string): Option<seq<seq<Term>>>
  {
    if text == "" then Some([]) else ReadClauses(text)
  }

  // ---------- parsing undoes printing ----------

  /** The values a filter offers; none when the printer drops it. */
  function Offered(filter: Filter): seq<string>
  {
    if filter.key == "" then []
    else match filter.values
         case Listed(items) => items
         case Scalar(text) => [text]
         case Mapping => []
  }

  function Terms(key: string, values: seq<string>): (terms: seq<Term>)
  {
    if values == [] then [] else [Term(key, values[0])] + Terms(key, values[1..])
  }

  function TermsOf(filter: Filter): seq<Term>
  {
    Terms(filter.key, Offered(filter))
  }

  /** The filter list with the filters that have no key or no value dropped. */
  function Kept(filters: seq<Filter>): seq<seq<Term>>
  {
    if filters == [] then []
    else (if Offered(filters[0]) == [] then [] else [TermsOf(filters[0])]) + Kept(filters[1..])
  }

  predicate PlainValue(s: string)
  {
    ' ' !in s && ')' !in s
  }

  /** Keys and values free of the printer's own delimiters. */
  ghost predicate Plain(filter: Filter)
  {
    && PlainValue(filter.key) && '=' !in filter.key
    && forall v :: v in Offered(filter) ==> PlainValue(v)
  }

  /** The filters that are printed are plain; the others do not matter. */
  ghost predicate KeptPlain(filters: seq<Filter>)
  {
    forall f :: f in filters && Offered(f) != [] ==> Plain(f)
  }

  lemma ReadTermOfText(key: string, value: string)
    requires '=' !in key
    ensures ReadTerm(key + "=" + value) == Some(Term(key, value))
  {
    var text := key + "=" + value;
    BeforeMarker(key, '=', value);
    assert text == key + ['='] + value;
    assert text[..|key|] == key && text[|key| + 1..] == value;
  }

  lemma ReadTermsStep(head: string, rest: string)
    requires ' ' !in head
    ensures ReadTerms(head + " OR " + rest) ==
              match (ReadTerm(head), ReadTerms(rest))
              case (Some(term), Some(terms)) => Some([term] + terms)
              case _ => None
  {
    var text := head + " OR " + rest;
    BeforeMarker(head, ' ', "OR " + rest);
    assert text == head + [' '] + ("OR " + rest);
    assert text[..|head|] == head && text[|head| + 4..] == rest;
    assert text[|head|..] == " OR " + rest;
  }

  lemma ReadClausesStep(body: string, after: string)
    requires ')' !in body
    requires after == "" || exists rest :: after == " AND " + rest
    ensures ReadClauses("(" + body + ")" + after) ==
              if ReadTerms(body).None? then None
              else if after == "" then Some([ReadTerms(body).value])
              else match ReadClauses(after[5..])
                   case Some(clauses) => Some([ReadTerms(body).value] + clauses)
                   case None => None
  {
    var text := "(" + body + ")" + after;
    BeforeMarker("(" + body, ')', after);
    assert text == ("(" + body) + [')'] + after;
    assert text[1..|body| + 1] == body && text[|body| + 2..] == after;
    if after != "" {
      var rest :| after == " AND " + rest;
      assert after[..5] == " AND ";
    }
  }

  ghost predicate PlainTerms(key: string, values: seq<string>)
  {
    PlainValue(key) && '=' !in key && forall v :: v in values ==> PlainValue(v)
  }

  lemma {:induction false} ReadTermsOfTexts(key: string, values: seq<string>)
    requires values != [] && PlainTerms(key, values)
    ensures ReadTerms(JoinWith(TermTexts(key, values), " OR ")) == Some(Terms(key, values))
    ensures ')' !in JoinWith(TermTexts(key, values), " OR ")
  {
    var head := key + "=" + values[0];
    assert values[0] in values;
    ReadTermOfText(key, values[0]);
    assert ' ' !in head && ')' !in head;
    assert TermTexts(key, values)[1..] == TermTexts(key, values[1..]);
    if |values| == 1 {
      assert TermTexts(key, values) == [head];
      assert Terms(key, values) == [Term(key, values[0])];
      assert Before(head, ' ') == |head|;
    } else {
      ReadTermsOfTexts(key, values[1..]);
      ReadTermsStep(head, JoinWith(TermTexts(key, values[1..]), " OR "));
    }
  }

  /** One printed clause is its body in parentheses, and the body reads back as the filter's terms. */
  lemma ClauseReadsBack(filter: Filter) returns (body: string)
    requires Plain(filter) && Offered(filter) != []
    ensures FullFilterString(filter) == "(" + body + ")"
    ensures ')' !in body && ReadTerms(body) == Some(TermsOf(filter))
  {
    body := JoinWith(TermTexts(filter.key, Offered(filter)), " OR ");
    ReadTermsOfTexts(filter.key, Offered(filter));
    if filter.values.Scalar? {
      assert TermTexts(filter.key, Offered(filter)) == [filter.key + "=" + filter.values.text];
    }
  }

  /** The printer drops exactly the filters that offer nothing. */
  lemma DroppedFilters(filter: Filter)
    ensures FullFilterString(filter) == "" <==> Offered(filter) == []
    ensures FullFilterString(filter) == "" <==> filter.key == "" || filter.values == Listed([]) || filter.values == Mapping
  {
  }

  lemma {:induction false} NothingKept(filters: seq<Filter>)
    ensures ClauseTexts(filters) == [] <==> Kept(filters) == []
    ensures |ClauseTexts(filters)| == |Kept(filters)|
    ensures forall t :: t in ClauseTexts(filters) ==> t != ""
  {
    if filters != [] {
      ClauseTextsStep(filters);
      NothingKept(filters[1..]);
      DroppedFilters(filters[0]);
    }
  }

  lemma PrintedStep(filters: seq<Filter>, body: string, after: string)
    requires filters != [] && FullFilterString(filters[0]) == "(" + body + ")"
    requires after == if ClauseTexts(filters[1..]) == [] then "" else " AND " + Printed(filters[1..])
    ensures Printed(filters) == "(" + body + ")" + after
  {
    ClauseTextsStep(filters);
    var tail := ClauseTexts(filters[1..]);
    assert ClauseTexts(filters) == ["(" + body + ")"] + tail;
    assert ClauseTexts(filters)[1..] == tail;
  }

  lemma AfterAnd(rest: string)
    ensures (" AND " + rest)[5..] == rest
  {
  }

  lemma {:induction false} ReadClausesOfPrinted(filters: seq<Filter>)
    requires KeptPlain(filters)
    requires Kept(filters) != []
    ensures ReadClauses(Printed(filters)) == Some(Kept(filters))
  {
    var tail := filters[1..];
    ClauseTextsStep(filters);
    NothingKept(filters);
    NothingKept(tail);
    DroppedFilters(filters[0]);
    if Offered(filters[0]) == [] {
      assert Kept(filters) == Kept(tail) && ClauseTexts(filters) == ClauseTexts(tail);
      ReadClausesOfPrinted(tail);
    } else {
      assert filters[0] in filters;
      var body := ClauseReadsBack(filters[0]);
      var rest := Printed(tail);
      var after := if ClauseTexts(tail) == [] then "" else " AND " + rest;
      assert Kept(filters) == [TermsOf(filters[0])] + Kept(tail);
      PrintedStep(filters, body, after);
      ReadClausesStep(body, after);
      if ClauseTexts(tail) != [] {
        ReadClausesOfPrinted(tail);
        AfterAnd(rest);
        assert ReadClauses(Printed(filters)) == Some([TermsOf(filters[0])] + Kept(tail));
      } else {
        assert ReadClauses(Printed(filters)) == Some([TermsOf(filters[0])]);
        assert Kept(tail) == [] && Kept(filters) == [TermsOf(filters[0])];
      }
    }
  }

  lemma ParsePlain(filters: seq<Filter>)
    requires KeptPlain(filters)
    ensures Parse(Printed(filters)) == Some(Kept(filters))
  {
    NothingKept(filters);
    if Kept(filters) != [] {
      ReadClausesOfPrinted(filters);
      assert Printed(filters) != "" by {
        assert ClauseTexts(filters)[0] != "";
      }
    }
  }

  // Whatever text the parser reads, the terms it finds are free of delimiters.

  ghost predicate PlainTerm(term: Term)
  {
    PlainValue(term.key) && '=' !in term.key && PlainValue(term.value)
  }

  ghost predicate PlainClause(clause: seq<Term>)
  {
    forall term :: term in clause ==> PlainTerm(term)
  }

  lemma ReadTermPlain(text: string)
    requires PlainValue(text) && ReadTerm(text).Some?
    ensures PlainTerm(ReadTerm(text).value)
  {
  }

  lemma PieceIsPlain(text: string, i: nat)
    requires ')' !in text && i <= |text| && ' ' !in text[..i]
    ensures PlainValue(text[..i])
  {
  }

  lemma {:induction false} ReadTermsPlain(text: string)
    requires ')' !in text && ReadTerms(text).Some?
    ensures PlainClause(ReadTerms(text).value)
    decreases |text|
  {
    var i := Before(text, ' ');
    PieceIsPlain(text, i);
    if i == |text| {
      assert text[..i] == text;
      ReadTermPlain(text);
    } else {
      var head, rest := text[..i], text[i + 4..];
      assert ReadTerms(text) == Some([ReadTerm(head).value] + ReadTerms(rest).value);
      ReadTermPlain(head);
      ReadTermsPlain(rest);
      PlainClauseNext(ReadTerm(head).value, ReadTerms(rest).value);
    }
  }

  lemma PlainClauseNext(term: Term, rest: seq<Term>)
    requires PlainTerm(term) && PlainClause(rest)
    ensures PlainClause([term] + rest)
  {
  }

  lemma {:induction false} ReadClausesPlain(text: string)
    requires ReadClauses(text).Some?
    ensures forall clause :: clause in ReadClauses(text).value ==> PlainClause(clause)
    decreases |text|
  {
    var i := Before(text, ')');
    assert ')' !in text[1..i] by {
      assert forall k :: 1 <= k < i ==> text[..i][k] == text[k];
    }
    ReadTermsPlain(text[1..i]);
    var rest := text[i + 1..];
    if rest != "" {
      ReadClausesPlain(rest[5..]);
    }
  }

  lemma {:induction false} KeptHolds(filters: seq<Filter>, f: Filter)
    requires f in filters && Offered(f) != []
    ensures TermsOf(f) in Kept(filters)
  {
    if f != filters[0] {
      assert f in filters[1..];
      KeptHolds(filters[1..], f);
    }
  }

  lemma {:induction false} TermsHoldValues(key: string, values: seq<string>, v: string)
    requires v in values
    ensures Term(key, v) in Terms(key, values)
  {
    if v != values[0] {
      TermsHoldValues(key, values[1..], v);
    }
  }

  lemma PlainFromTerms(f: Filter)
    requires Offered(f) != [] && PlainClause(TermsOf(f))
    ensures Plain(f)
  {
    forall v | v in Offered(f)
      ensures PlainTerm(Term(f.key, v))
    {
      TermsHoldValues(f.key, Offered(f), v);
    }
    assert Offered(f)[0] in Offered(f);
  }

  /**
    Parsing the printed text gives back the filter list without its empty filters, exactly
    when the others are free of the printer's delimiters.
   */
  lemma ParsePrinted(filters: seq<Filter>)
    ensures Parse(Printed(filters)) == Some(Kept(filters)) <==> KeptPlain(filters)
  {
    if KeptPlain(filters) {
      ParsePlain(filters);
    }
    if Parse(Printed(filters)) == Some(Kept(filters)) {
      if Printed(filters) != "" {
        ReadClausesPlain(Printed(filters));
      }
      forall f | f in filters && Offered(f) != []
        ensures Plain(f)
      {
        KeptHolds(filters, f);
        PlainFromTerms(f);
      }
    }
  }

  // ---------- what the text means ----------

  ghost predicate Holds(term: Term, instance: map<string, string>)
  {
    term.key in instance && instance[term.key] == term.value
  }

  ghost predicate SomeHolds(terms: seq<Term>, instance: map<string, string>)
  {
    exists term :: term in terms && Holds(term, instance)
  }

  ghost predicate EachHolds(clauses: seq<seq<Term>>, instance: map<string, string>)
  {
    forall clause :: clause in clauses ==> SomeHolds(clause, instance)
  }

  /** The query text accepts an instance when every clause has a term that holds. */
  ghost predicate TextAccepts(text: string, instance: map<string, string>)
  {
    Parse(text).Some? && EachHolds(Parse(text).value, instance)
  }

  /** A filter asks for one of its values in its field; a filter that offers nothing asks nothing. */
  ghost predicate FilterAccepts(filter: Filter, instance: map<string, string>)
  {
    filter.key != "" ==>
      match filter.values
      case Listed(items) => items == [] || (filter.key in instance && instance[filter.key] in items)
      case Scalar(text) => filter.key in instance && instance[filter.key] == text
      case Mapping => true
  }

  ghost predicate AllAccept(filters: seq<Filter>, instance: map<string, string>)
  {
    forall f :: f in filters ==> FilterAccepts(f, instance)
  }

  lemma {:induction false} TermsHold(key: string, values: seq<string>, instance: map<string, string>)
    ensures SomeHolds(Terms(key, values), instance) <==> key in instance && instance[key] in values
  {
    if values != [] {
      var head, tail := Term(key, values[0]), Terms(key, values[1..]);
      TermsHold(key, values[1..], instance);
      assert values == [values[0]] + values[1..];
      assert head in Terms(key, values);
      assert forall t :: t in Terms(key, values) <==> t == head || t in tail;
    }
  }

  lemma {:induction false} KeptAccepts(filters: seq<Filter>, instance: map<string, string>)
    ensures EachHolds(Kept(filters), instance) <==> AllAccept(filters, instance)
  {
    if filters != [] {
      var head, tail := filters[0], filters[1..];
      KeptAccepts(tail, instance);
      TermsHold(head.key, Offered(head), instance);
      assert AllAccept(filters, instance) <==> FilterAccepts(head, instance) && AllAccept(tail, instance) by {
        assert forall f :: f in filters <==> f == head || f in tail;
      }
      EachHoldsStep(TermsOf(head), Kept(tail), instance);
      assert Kept(filters) == if Offered(head) == [] then Kept(tail) else [TermsOf(head)] + Kept(tail);
    }
  }

  lemma EachHoldsStep(clause: seq<Term>, rest: seq<seq<Term>>, instance: map<string, string>)
    ensures EachHolds([clause] + rest, instance) <==> SomeHolds(clause, instance) && EachHolds(rest, instance)
  {
    assert clause in [clause] + rest;
    assert forall c :: c in [clause] + rest <==> c == clause || c in rest;
  }

  /** Printing preserves meaning: the text accepts exactly what all the filters accept. */
  lemma PrintedMeaning(filters: seq<Filter>, instance: map<string, string>)
    requires KeptPlain(filters)
    ensures TextAccepts(Printed(filters), instance) <==> AllAccept(filters, instance)
  {
    ParsePrinted(filters);
    KeptAccepts(filters, instance);
  }

  /** What a query looks like: an AND of parenthesised ORs of `key=value`. */
  lemma PrintedTwo(a: string, v: string, w: string, b: string, x: string)
    requires a != "" && b != ""
    ensures Printed([Filter(a, Listed([v, w])), Filter(b, Scalar(x))]) ==
              "(" + a + "=" + v + " OR " + a + "=" + w + ") AND (" + b + "=" + x + ")"
  {
    var f, g := Filter(a, Listed([v, w])), Filter(b, Scalar(x));
    var values := [v, w];
    assert values[1..] == [w];
    assert TermTexts(a, [w]) == [a + "=" + w];
    assert TermTexts(a, values) == [a + "=" + v, a + "=" + w];
    var body := a + "=" + v + " OR " + (a + "=" + w);
    assert [a + "=" + v, a + "=" + w][1..] == [a + "=" + w];
    assert JoinWith([a + "=" + v, a + "=" + w], " OR ") == body;
    assert FullFilterString(f) == "(" + body + ")";
    PrintedOne(g);
    ClauseTextsStep([g]);
    assert [f, g][1..] == [g];
    assert ClauseTexts([g]) == [FullFilterString(g)] + ClauseTexts([]);
    PrintedStep([f, g], body, " AND " + Printed([g]));
    assert body == a + "=" + v + " OR " + a + "=" + w;
  }

  lemma PrintedOne(f: Filter)
    requires Offered(f) != []
    ensures Printed([f]) == FullFilterString(f)
  {
    DroppedFilters(f);
    ClauseTextsStep([f]);
    assert ClauseTexts([f]) == [FullFilterString(f)] + ClauseTexts([]);
    assert ClauseTexts([f]) == [FullFilterString(f)];
  }

  /**
    With delimiters in a value the text can lose the meaning for every reader: one value that
    holds " OR " prints like two values, and only one of the two filters accepts the instance.
   */
  lemma DelimitersLoseTheMeaning()
    ensures var one, two := Filter("a", Listed(["b OR a=c"])), Filter("a", Listed(["b", "c"]));
            && Printed([one]) == Printed([two])
            && FilterAccepts(two, map["a" := "b"]) && !FilterAccepts(one, map["a" := "b"])
  {
    var one, two := Filter("a", Listed(["b OR a=c"])), Filter("a", Listed(["b", "c"]));
    PrintedOne(one);
    PrintedOne(two);
    assert TermTexts("a", ["b OR a=c"]) == ["a" + "=" + "b OR a=c"];
    var values := ["b", "c"];
    assert values[1..] == ["c"];
    assert TermTexts("a", ["c"]) == ["a" + "=" + "c"];
    assert TermTexts("a", values) == ["a" + "=" + "b", "a" + "=" + "c"];
    assert "a" + "=" + "b OR a=c" == "a" + "=" + "b" + " OR " + ("a" + "=" + "c");
    assert |"b OR a=c"| == 8 && |"b"| == 1;
  }

  lemma {:induction false} AppendedAccept(filters: seq<Filter>, filter: Filter, n: nat, instance: map<string, string>)
    requires n > 0
    ensures AllAccept(filters + Repeated(filter, n), instance) <==>
              AllAccept(filters, instance) && FilterAccepts(filter, instance)
    ensures forall f :: f in filters + Repeated(filter, n) <==> f in filters || f == filter
  {
    if n == 1 {
      assert Repeated(filter, 1) == [filter];
    } else {
      AppendedAccept(filters, filter, n - 1, instance);
      assert filters + Repeated(filter, n) == filters + Repeated(filter, n - 1) + [filter];
    }
  }

  lemma FirstStatusesArePlain()
    ensures PlainValue("PROVISIONING") && PlainValue("STAGING") && PlainValue("RUNNING") && PlainValue("STOPPING")
  {
  }

  lemma LastStatusesArePlain()
    ensures PlainValue("REPAIRING") && PlainValue("SUSPENDING") && PlainValue("SUSPENDED") && PlainValue("TERMINATED")
  {
  }

  lemma StatusFilterIsPlain()
    ensures Plain(STATUS_FILTER)
  {
    FirstStatusesArePlain();
    LastStatusesArePlain();
    assert Offered(STATUS_FILTER) == STATUSES;
  }

  /**
    Listing again with the same list, now longer by one more status filter, asks the same
    question: the caller's filters and one of the eight states.
   */
  lemma RepeatedListingsAskTheSame(filters: seq<Filter>, n: nat, instance: map<string, string>)
    requires KeptPlain(filters)
    requires n > 0
    ensures TextAccepts(Printed(ItemsAfter(filters, n)), instance)
       <==> AllAccept(filters, instance) && "status" in instance &&
            instance["status"] in {"PROVISIONING", "STAGING", "RUNNING", "STOPPING",
                                   "REPAIRING", "SUSPENDING", "SUSPENDED", "TERMINATED"}
  {
    assert FilterAccepts(STATUS_FILTER, instance) <==> "status" in instance && instance["status"] in STATUSES;
    StatusFilterIsPlain();
    AppendedAccept(filters, STATUS_FILTER, n, instance);
    PrintedMeaning(filters + Repeated(STATUS_FILTER, n), instance);
  }
}
