/** The KnowledgeBase schema: a topic, a content text and a category, all
    required, a status that is ACTIVE or INACTIVE and defaults to ACTIVE,
    and the createdAt/updatedAt timestamps Mongoose maintains. */
module KnowledgeModel {

  datatype Status = Active | Inactive

  datatype Knowledge = Knowledge(
    topic: string,
    content: string,
    category: string,
    status: Status,
    createdAt: int,
    updatedAt: int)

  /** What the schema guarantees of every stored record: the three required
      strings are non-empty (Mongoose rejects "" for a required String). */
  predicate WellFormed(k: Knowledge) {
    && k.topic != ""
    && k.content != ""
    && k.category != ""
  }

  /** A new document built from the three required fields at time `now`:
      the status takes its schema default. */
  function NewKnowledge(topic: string, content: string, category: string, now: int): (k: Knowledge)
    requires topic != "" && content != "" && category != ""
    ensures WellFormed(k)
    ensures k.status == Active
    ensures k.topic == topic && k.content == content && k.category == category
    ensures k.createdAt == now && k.updatedAt == now
  {
    Knowledge(topic, content, category, Active, now, now)
  }

  /** The toggle rule: ACTIVE becomes INACTIVE, anything else becomes ACTIVE. */
  function Toggled(s: Status): (t: Status)
    ensures t != s
  {
    if s == Active then Inactive else Active
  }

  /** Toggling twice gives back the original status. */
  lemma ToggleTwice(s: Status)
    ensures Toggled(Toggled(s)) == s
  {
  }

  /** The field a listing sorts on. */
  function UpdatedAt(row: (string, Knowledge)): int {
    row.1.updatedAt
  }
}
