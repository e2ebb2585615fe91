/** The tables a slot keeps of resources that jobs may use together: those of time-sharing jobs
    by user and job name, and those of placeholders by name (oar/kao/slot.py).
 */
module Sharing {
  import opened Options

  /** Who may share the resources of a time-sharing job. */
  datatype Sharer = Sharer(user: string, name: string)

  /** A job may own a placeholder, or be allowed to use one. */
  datatype Placeholder = NoPlaceholder | OwnPlaceholder(name: string) | UsePlaceholder(name: string)

  datatype Tables = Tables(shared: map<string, map<string, set<int>>>, held: map<string, set<int>>)

  const NO_TABLES := Tables(map[], map[])

  /** The resources shared with `s`, as far as there is an entry. */
  function SharedWith(t: Tables, s: Sharer): Option<set<int>> {
    if s.user in t.shared && s.name in t.shared[s.user] then Some(t.shared[s.user][s.name]) else None
  }

  function HeldUnder(t: Tables, name: string): Option<set<int>> {
    if name in t.held then Some(t.held[name]) else None
  }

  /** A job taken out enters its resources only where there is no entry yet; a job given back
      adds them. */
  function Share(shared: map<string, map<string, set<int>>>, s: Sharer, res: set<int>,
                 sub: bool): map<string, map<string, set<int>>> {
    var row := if s.user in shared then shared[s.user] else map[];
    var row' := if s.name !in row then row[s.name := res] else if sub then row else row[s.name := row[s.name] + res];
    shared[s.user := row']
  }

  /** The owner of a placeholder enters its resources, replacing what is there when it is taken
      out; a job that uses the placeholder takes its resources from the entry, if there is one. */
  function Reserve(held: map<string, set<int>>, p: Placeholder, res: set<int>, sub: bool): map<string, set<int>> {
    match p
    case NoPlaceholder => held
    case OwnPlaceholder(n) => held[n := if sub || n !in held then res else held[n] + res]
    case UsePlaceholder(n) => if sub && n in held then held[n := held[n] - res] else held
  }

  /** The tables of a slot during a job. */
  function Entered(t: Tables, sharer: Option<Sharer>, p: Placeholder, res: set<int>, sub: bool): Tables {
    Tables(if sharer.Some? then Share(t.shared, sharer.value, res, sub) else t.shared, Reserve(t.held, p, res, sub))
  }

  /** A job changes only the entries that are about it. Taken out, a time-sharing job finds its
      resources in its entry exactly when there was none or they were in it already; given back,
      it always does. Taken out, the owner of a placeholder leaves exactly its own resources under
      the name and a user takes its own from what is held there; given back, the owner adds its
      own and a user changes nothing. */
  lemma EnteredChanges(t: Tables, sharer: Option<Sharer>, p: Placeholder, res: set<int>, sub: bool)
    ensures var u := Entered(t, sharer, p, res, sub);
            && (forall s :: sharer != Some(s) ==> SharedWith(u, s) == SharedWith(t, s))
            && (forall n :: p != OwnPlaceholder(n) && p != UsePlaceholder(n) ==> HeldUnder(u, n) == HeldUnder(t, n))
            && (sharer.Some? ==>
                  var before, after := SharedWith(t, sharer.value), SharedWith(u, sharer.value);
                  after == if before.None? then Some(res) else if sub then before else Some(before.value + res))
            && (sharer.Some? ==>
                  (res <= SharedWith(u, sharer.value).value
                   <==> !sub || SharedWith(t, sharer.value).None? || res <= SharedWith(t, sharer.value).value))
            && (p.OwnPlaceholder? ==>
                  var before, after := HeldUnder(t, p.name), HeldUnder(u, p.name);
                  && after == (if sub || before.None? then Some(res) else Some(before.value + res))
                  && res <= after.value)
            && (p.UsePlaceholder? ==>
                  var before, after := HeldUnder(t, p.name), HeldUnder(u, p.name);
                  && after == (if sub && before.Some? then Some(before.value - res) else before)
                  && (sub && after.Some? ==> res !! after.value))
  {
    forall s | sharer != Some(s) ensures SharedWith(Entered(t, sharer, p, res, sub), s) == SharedWith(t, s) {
    }
  }
}
