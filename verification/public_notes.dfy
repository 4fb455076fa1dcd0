/** src/claim/notes.ts publicNotesFor and noteAuthor: what a public note shows of its writer and of their words. */
module PublicNotes {
  import opened Optional
  import opened Notes

  datatype Attribution = Attributed | Anonymous | AttributedWithNotification

  /** The joined tables: contributors' names, the handles pages show, and the (contributor, node) pairs with an approved claim. */
  datatype Tables = Tables(names: map<string, string>, handles: map<string, string>, claims: set<(string, string)>)

  /** A note with its signal's consent and source. */
  datatype Row = Row(note: Note, attribution: Attribution, structuralOnly: bool, source: Option<string>)

  /** What the page gets. */
  datatype Shown = Shown(
    note: Note, writer: Option<string>, handle: Option<string>, anonymous: bool, withheld: bool, subjectNow: bool, source: Option<string>)

  function NameOf(t: Tables, n: Note): Option<string>
  {
    if n.contributor in t.names then Some(t.names[n.contributor]) else None
  }

  function HandleOf(t: Tables, n: Note): Option<string>
  {
    if n.node in t.handles then Some(t.handles[n.node]) else None
  }

  predicate ClaimStands(t: Tables, n: Note)
  {
    (n.contributor, n.node) in t.claims
  }

  /** The reading rules, then the anonymous ones, then the withheld ones, in that order. */
  method Show(t: Tables, r: Row) returns (n: Shown)
    ensures n == Public(t, r)
  {
    n := Shown(
      r.note, NameOf(t, r.note), HandleOf(t, r.note), r.attribution == Anonymous, r.structuralOnly, ClaimStands(t, r.note), None);
    if r.note.kind == Reading {
      n := n.(subjectNow := false, handle := None);
      if !n.withheld && r.source.Some? && IsWebAddress(r.source.value) { n := n.(source := r.source); }
    }
    if n.anonymous {
      n := n.(writer := None, handle := None, note := n.note.(contributor := "", node := "", queue := None));
    }
    if n.withheld { n := n.(note := n.note.(words := "")); }
  }

  function Public(t: Tables, r: Row): Shown
  {
    var anonymous, withheld, reading := r.attribution == Anonymous, r.structuralOnly, r.note.kind == Reading;
    Shown(
      r.note.(words := if withheld then "" else r.note.words,
              contributor := if anonymous then "" else r.note.contributor,
              node := if anonymous then "" else r.note.node,
              queue := if anonymous then None else r.note.queue),
      if anonymous then None else NameOf(t, r.note),
      if anonymous || reading then None else HandleOf(t, r.note),
      anonymous, withheld, ClaimStands(t, r.note) && !reading,
      if reading && !withheld && r.source.Some? && IsWebAddress(r.source.value) then r.source else None)
  }

  datatype Author = Someone | AContributor | Name(name: string) | AtHandle(handle: string)

  /** noteAuthor: how the page may call the writer, and whether it may say the subject speaks. */
  function AuthorOf(n: Shown): (Author, bool)
  {
    var named := if n.writer.Some? then Name(n.writer.value) else AContributor;
    if n.anonymous then (Someone, false)
    else if n.note.kind == Reading then (named, false)
    else (if n.subjectNow && n.handle.Some? then AtHandle(n.handle.value) else named, n.subjectNow)
  }

  /** The same note by another writer, from another page. */
  function By(r: Row, contributor: string, node: string, queue: Option<nat>): Row
  {
    r.(note := r.note.(contributor := contributor, node := node, queue := queue))
  }

  /**
   * Two writers of one note look alike exactly when the note is anonymous and, unless it is a reading, their claims on the
   * pages they wrote from agree: an anonymous contest or context note still tells whether its writer's claim stands.
   * How the page calls the writer never tells, for any anonymous note.
   */
  lemma AnonymousHidesWriter(t: Tables, r: Row, contributor: string, node: string, queue: Option<nat>)
    ensures var other := By(r, contributor, node, queue);
      && (Public(t, other) == Public(t, r) <==>
            || other == r
            || (r.attribution == Anonymous && (r.note.kind == Reading || (ClaimStands(t, other.note) <==> ClaimStands(t, r.note)))))
      && (r.attribution == Anonymous ==> AuthorOf(Public(t, other)) == AuthorOf(Public(t, r)) == (Someone, false))
  {
    var other := By(r, contributor, node, queue);
    if r.attribution != Anonymous && Public(t, other) == Public(t, r) {
      var a, b := Public(t, other).note, Public(t, r).note;
      assert a.contributor == contributor && b.contributor == r.note.contributor;
      assert a.node == node && b.node == r.note.node && a.queue == queue && b.queue == r.note.queue;
      assert other.note == r.note;
    }
  }

  /** Words withheld, and the source they came from, do not show; all others do. */
  lemma WithheldHidesWords(t: Tables, r: Row, words: string, source: Option<string>)
    ensures r.structuralOnly ==> Public(t, r.(note := r.note.(words := words), source := source)) == Public(t, r)
    ensures !r.structuralOnly && words != r.note.words ==> Public(t, r.(note := r.note.(words := words))) != Public(t, r)
  {
    if !r.structuralOnly {
      assert Public(t, r.(note := r.note.(words := words))).note.words == words && Public(t, r).note.words == r.note.words;
    }
  }

  /** The page says "the subject", or shows the handle, only for a note in the writer's name whose claim stands; never for a reading. */
  lemma SubjectOnlyWhileClaimStands(t: Tables, r: Row)
    ensures AuthorOf(Public(t, r)).1 <==> r.attribution != Anonymous && r.note.kind != Reading && ClaimStands(t, r.note)
    ensures AuthorOf(Public(t, r)).0.AtHandle? <==> AuthorOf(Public(t, r)).1 && r.note.node in t.handles
    ensures AuthorOf(Public(t, r)).0.AtHandle? ==> AuthorOf(Public(t, r)).0.handle == t.handles[r.note.node]
  {
  }

  /** What does show: the writer's own name unless anonymous, the page's handle unless anonymous or a reading, the words unless kept
      back, and the source only of a reading whose words show, when it is a web address. */
  lemma WhatShows(t: Tables, r: Row)
    ensures var n := Public(t, r);
      && (r.attribution == Anonymous ==> n.writer.None? && n.handle.None? && n.note.contributor == "" && n.note.node == "" && n.note.queue.None?)
      && (r.attribution != Anonymous ==>
            && n.writer == (if r.note.contributor in t.names then Some(t.names[r.note.contributor]) else None)
            && n.note == r.note.(words := n.note.words)
            && n.handle == (if r.note.kind != Reading && r.note.node in t.handles then Some(t.handles[r.note.node]) else None))
      && n.note.words == (if r.structuralOnly then "" else r.note.words)
      && n.note.(words := "", contributor := "", node := "", queue := None) == r.note.(words := "", contributor := "", node := "", queue := None)
      && (n.source == r.source || n.source.None?)
      && (n.source.Some? <==> r.note.kind == Reading && !r.structuralOnly && r.source.Some? && IsWebAddress(r.source.value))
      && (n.subjectNow <==> r.note.kind != Reading && (r.note.contributor, r.note.node) in t.claims)
  {
  }

  /** A note in the writer's name is by the page's handle while their claim stands and the page has one, else by their own name. */
  lemma WhoSpeaks(t: Tables, r: Row)
    requires r.attribution != Anonymous && r.note.contributor in t.names
    ensures AuthorOf(Public(t, r)).0
         == if r.note.kind != Reading && (r.note.contributor, r.note.node) in t.claims && r.note.node in t.handles
            then AtHandle(t.handles[r.note.node]) else Name(t.names[r.note.contributor])
  {
  }
}
