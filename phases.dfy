/**
 Phase identities, the static table of permitted phase changes, and the
 status a phase's per-frame Update reports (Go's `error`, nil or not).
 */
module Phases {

  /** A phase identity. In the game it is a plain integer type, so values
      outside the three named identities exist and can be asked about. */
  type Index = int

  // The three identities, numbered in declaration order.
  const Intro: Index := 0
  const Menu: Index := 1
  const Game: Index := 2

  /** The errors a phase's Update can report: the intro's defensive check on
      its logo index, and the engine's termination signal the Quit button uses. */
  datatype Error = NegativeLogoIndex | Termination

  /** The result of a per-frame Update: `Ok` is Go's nil error. */
  datatype Status = Ok | Failed(error: Error)

  /** Which destinations each phase may move to, as a lookup table whose
      entries are lists (searched in order). */
  const ChangePermissions: map<Index, seq<Index>> :=
    map[Intro := [Menu], Menu := [Game], Game := [Menu]]

  /** The permitted changes as a set of edges: an independent statement of
      the table, used to state what ChangePermitted decides. */
  const PermittedEdges: set<(Index, Index)> := {(Intro, Menu), (Menu, Game), (Game, Menu)}

  /** The linear search through a permissions list: true as soon as an entry
      equals `to`, false when the list is exhausted. */
  function Member(permissions: seq<Index>, to: Index): (r: bool)
    ensures r <==> to in permissions
  {
    if permissions == [] then false
    else if permissions[0] == to then true
    else Member(permissions[1..], to)
  }

  /** May the game move from phase `from` to phase `to`? A source missing
      from the table may move nowhere. The table is only read. */
  function ChangePermitted(from: Index, to: Index): (r: bool)
    ensures r <==> from in ChangePermissions && to in ChangePermissions[from]
    ensures from !in ChangePermissions ==> !r
  {
    if from !in ChangePermissions then false
    else Member(ChangePermissions[from], to)
  }

  /** ChangePermitted accepts exactly the three edges Intro->Menu, Menu->Game
      and Game->Menu, and nothing else. */
  lemma ChangePermittedIsEdgeSet(from: Index, to: Index)
    ensures ChangePermitted(from, to) <==> (from, to) in PermittedEdges
    ensures |PermittedEdges| == 3
  {
    assert (Intro, Menu) != (Menu, Game) && (Menu, Game) != (Game, Menu) && (Intro, Menu) != (Game, Menu);
    assert PermittedEdges == {(Intro, Menu)} + {(Menu, Game)} + {(Game, Menu)};
  }

  /** Any source other than the three declared identities is refused,
      whatever the destination. */
  lemma UnknownSourceRefused(from: Index, to: Index)
    requires from != Intro && from != Menu && from != Game
    ensures !ChangePermitted(from, to)
  {
  }

  /** No phase may change to itself, and no phase may change to the intro. */
  lemma NoSelfChangeNoReturnToIntro(from: Index, to: Index)
    ensures !ChangePermitted(from, from)
    ensures !ChangePermitted(from, Intro)
  {
  }
}
