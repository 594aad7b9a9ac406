/** The knowledge-base handlers: list, create, update, toggle status and
    delete. The `knowledgebase` collection is a map from document id to
    record, together with the collection's natural order (the order
    documents were inserted), which decides how equal timestamps are
    listed. Handlers answer with an HTTP status code. */
module KnowledgeController {
  import opened Common
  import opened KnowledgeModel
  import Sorting

  type Row = (string, Knowledge)

  /** The documents of the collection in natural order. */
  function Rows(order: seq<string>, items: map<string, Knowledge>): seq<Row>
  {
    if order == [] then []
    else (if order[0] in items then [(order[0], items[order[0]])] else []) + Rows(order[1..], items)
  }

  ghost predicate Distinct<T>(s: seq<T>) {
    forall i, j :: 0 <= i < j < |s| ==> s[i] != s[j]
  }

  /** `s` without any occurrence of `x`, the rest in order. */
  function Without(s: seq<string>, x: string): (r: seq<string>)
    ensures forall i :: 0 <= i < |r| ==> r[i] in s && r[i] != x
    ensures forall y :: y in s && y != x ==> y in r
    ensures Distinct(s) ==> Distinct(r)
  {
    if s == [] then []
    else if s[0] == x then Without(s[1..], x)
    else [s[0]] + Without(s[1..], x)
  }

  /** An update body field: present and empty fails the `required`
      validator that `runValidators` applies to the update. */
  predicate Rejected(field: Option<string>) {
    field == Some("")
  }

  /** The record after `findByIdAndUpdate` with the fields that were sent:
      an absent field is left out of the update and keeps its value. */
  function Patched(k: Knowledge, topic: Option<string>, content: Option<string>,
                   category: Option<string>, now: int): (p: Knowledge)
    requires WellFormed(k)
    requires !Rejected(topic) && !Rejected(content) && !Rejected(category)
    ensures WellFormed(p)
    ensures p.status == k.status && p.createdAt == k.createdAt && p.updatedAt == now
    ensures p.topic == (if topic.Some? then topic.value else k.topic)
    ensures p.content == (if content.Some? then content.value else k.content)
    ensures p.category == (if category.Some? then category.value else k.category)
  {
    k.(topic := if topic.Some? then topic.value else k.topic,
       content := if content.Some? then content.value else k.content,
       category := if category.Some? then category.value else k.category,
       updatedAt := now)
  }

  class KnowledgeBase {
    var items: map<string, Knowledge>
    var order: seq<string>

    /** Every stored record satisfies the schema, and `order` lists each
        stored id exactly once. */
    ghost predicate Valid()
      reads this
    {
      && (forall id :: id in items ==> WellFormed(items[id]))
      && (forall i :: 0 <= i < |order| ==> order[i] in items)
      && (forall id :: id in items ==> id in order)
      && Distinct(order)
    }

    constructor ()
      ensures Valid() && items == map[] && order == []
    {
      items := map[];
      order := [];
    }

    /** GET /api/knowledge: every record, whatever its status, newest
        update first, each exactly once. */
    function GetAllKnowledge(): (rows: seq<Row>)
      reads this
      requires Valid()
      ensures Sorting.SortedDesc(rows, UpdatedAt)
      ensures forall r :: r in rows <==> r.0 in items && r.1 == items[r.0]
      ensures forall i, j :: 0 <= i < j < |rows| ==> rows[i].0 != rows[j].0
    {
      var natural := Rows(order, items);
      Sorting.SortDescCorrect(natural, UpdatedAt);
      RowsAreEntries(order, items);
      var rows := Sorting.SortDesc(natural, UpdatedAt);
      DistinctByCount(natural);
      DistinctByCount(rows);
      forall r ensures r in rows <==> r in natural {
        assert r in rows <==> r in multiset(rows);
        assert r in natural <==> r in multiset(natural);
      }
      rows
    }

    /** POST /api/knowledge. */
    method CreateKnowledge(topic: Option<string>, content: Option<string>, category: Option<string>,
                           newId: string, now: int) returns (code: int, created: Option<Knowledge>)
      requires Valid()
      requires newId !in items
      modifies this
      ensures Valid()
      ensures !(Truthy(topic) && Truthy(content) && Truthy(category)) ==>
                code == 400 && created == None && items == old(items) && order == old(order)
      ensures Truthy(topic) && Truthy(content) && Truthy(category) ==>
                && code == 201
                && created == Some(NewKnowledge(topic.value, content.value, category.value, now))
                && items == old(items)[newId := created.value]
                && order == old(order) + [newId]
    {
      if !Truthy(topic) || !Truthy(content) || !Truthy(category) {
        return 400, None;
      }
      var k := NewKnowledge(topic.value, content.value, category.value, now);
      items := items[newId := k];
      order := order + [newId];
      return 201, Some(k);
    }

    /** PUT /api/knowledge/:id: validation first (500), then the lookup (404). */
    method UpdateKnowledge(id: string, topic: Option<string>, content: Option<string>,
                           category: Option<string>, now: int) returns (code: int, updated: Option<Knowledge>)
      requires Valid()
      modifies this
      ensures Valid() && order == old(order)
      ensures Rejected(topic) || Rejected(content) || Rejected(category) ==>
                code == 500 && updated == None && items == old(items)
      ensures !(Rejected(topic) || Rejected(content) || Rejected(category)) && id !in old(items) ==>
                code == 404 && updated == None && items == old(items)
      ensures !(Rejected(topic) || Rejected(content) || Rejected(category)) && id in old(items) ==>
                && code == 200
                && updated == Some(Patched(old(items)[id], topic, content, category, now))
                && items == old(items)[id := updated.value]
    {
      if Rejected(topic) || Rejected(content) || Rejected(category) {
        return 500, None;
      }
      if id !in items {
        return 404, None;
      }
      var p := Patched(items[id], topic, content, category, now);
      items := items[id := p];
      return 200, Some(p);
    }

    /** The status toggle handler (ACTIVE <-> INACTIVE). */
    method ToggleKnowledgeStatus(id: string, now: int) returns (code: int, updated: Option<Knowledge>)
      requires Valid()
      modifies this
      ensures Valid() && order == old(order)
      ensures id !in old(items) ==> code == 404 && updated == None && items == old(items)
      ensures id in old(items) ==>
                && code == 200
                && updated == Some(old(items)[id].(status := Toggled(old(items)[id].status), updatedAt := now))
                && items == old(items)[id := updated.value]
    {
      if id !in items {
        return 404, None;
      }
      var k := items[id];
      var t := k.(status := Toggled(k.status), updatedAt := now);
      items := items[id := t];
      return 200, Some(t);
    }

    /** DELETE /api/knowledge/:id. */
    method DeleteKnowledge(id: string) returns (code: int)
      requires Valid()
      modifies this
      ensures Valid()
      ensures id !in old(items) ==> code == 404 && items == old(items) && order == old(order)
      ensures id in old(items) ==> code == 200 && items == old(items) - {id} && order == Without(old(order), id)
    {
      if id !in items {
        return 404;
      }
      items := items - {id};
      order := Without(order, id);
      code := 200;
    }
  }

  /** The natural-order rows are exactly the stored entries, each once. */
  lemma {:induction false} RowsAreEntries(order: seq<string>, items: map<string, Knowledge>)
    requires Distinct(order)
    ensures forall r :: r in Rows(order, items) <==> r.0 in order && r.0 in items && r.1 == items[r.0]
    ensures Distinct(Rows(order, items))
  {
    if order != [] {
      RowsAreEntries(order[1..], items);
      var rest := Rows(order[1..], items);
      forall r: Row | r in Rows(order, items)
        ensures r.0 in order && r.0 in items && r.1 == items[r.0]
      {
        if r in rest {
          assert r.0 in order[1..];
        }
      }
      forall r: Row | r.0 in order && r.0 in items && r.1 == items[r.0]
        ensures r in Rows(order, items)
      {
        if r.0 != order[0] {
          var k :| 0 <= k < |order| && order[k] == r.0;
          assert order[1..][k - 1] == r.0;
        }
      }
      forall i | 0 <= i < |rest| ensures rest[i].0 != order[0] {
        assert rest[i] in rest;
        var k :| 0 <= k < |order[1..]| && order[1..][k] == rest[i].0;
        assert order[k + 1] == rest[i].0;
      }
    }
  }

  /** A sequence is free of repetitions exactly when no element occurs twice
      in its multiset. */
  lemma {:induction false} DistinctByCount<T>(s: seq<T>)
    ensures Distinct(s) <==> forall x :: multiset(s)[x] <= 1
  {
    if s != [] {
      DistinctByCount(s[1..]);
      assert s == [s[0]] + s[1..];
      assert multiset(s) == multiset{s[0]} + multiset(s[1..]);
      if Distinct(s) {
        assert Distinct(s[1..]);
        assert s[0] !in s[1..];
      }
      if forall x :: multiset(s)[x] <= 1 {
        forall x ensures multiset(s[1..])[x] <= 1 {
          assert multiset(s)[x] <= 1;
        }
        assert multiset(s)[s[0]] <= 1;
        assert s[0] !in multiset(s[1..]);
        forall i, j | 0 <= i < j < |s| ensures s[i] != s[j] {
          if i == 0 {
            assert s[j] == s[1..][j - 1];
          } else {
            assert s[i] == s[1..][i - 1] && s[j] == s[1..][j - 1];
          }
        }
      }
    }
  }
}
