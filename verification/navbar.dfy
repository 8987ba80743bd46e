/** The navigation bar (frontend/src/Component/layout/Navbar.js): the
    unread badge on the bell and the choice of navigation links. */
module Navbar {
  import Client
  import Notifications

  /** The bell's badge: absent, or a label. */
  datatype Badge = NoBadge | Label(text: string)

  /** The badge for an unread count: none at 0, `9+` above 9, otherwise the
      count written as its single digit. */
  function BadgeFor(count: nat): (b: Badge)
    ensures b.NoBadge? <==> count == 0
    ensures count > 9 ==> b == Label("9+")
    ensures 0 < count <= 9 ==> |b.text| == 1 && '1' <= b.text[0] <= '9' && b.text[0] as int - '0' as int == count
  {
    if count == 0 then NoBadge
    else if count > 9 then Label("9+")
    else Label([('0' as int + count) as char])
  }

  /** The badge the bar shows for a fetched notification list: none exactly
      when every notification is read. */
  lemma NoBadgeIffAllRead(ns: seq<Client.Notification>)
    ensures BadgeFor(Notifications.UnreadCount(ns)).NoBadge? <==> forall i :: 0 <= i < |ns| ==> ns[i].read
  {
  }

  /** `isLandingPage`. */
  predicate IsLandingPage(path: string) {
    path == "/" || path == "/home"
  }

  datatype Link = Link(name: string, href: string)

  /** The in-page anchors of the landing page. */
  const LandingLinks: seq<Link> := [
    Link("Features", "#features"),
    Link("How It Works", "#how-it-works"),
    Link("Benefits", "#benefits"),
    Link("Contact", "#contact")
  ]

  /** The application's pages. */
  const AppLinks: seq<Link> := [
    Link("Dashboard", "/dashboard"),
    Link("My Courses", "/courses"),
    Link("Certificates", "/certificates")
  ]

  /** `navigation`: the anchors on `/` and `/home`, the application's
      pages everywhere else; the landing list only points inside the
      page and the other only at routes. */
  function Navigation(path: string): (links: seq<Link>)
    ensures IsLandingPage(path) ==> |links| == 4 && forall i :: 0 <= i < |links| ==> links[i].href != [] && links[i].href[0] == '#'
    ensures !IsLandingPage(path) ==> |links| == 3 && forall i :: 0 <= i < |links| ==> links[i].href != [] && links[i].href[0] == '/'
  {
    if IsLandingPage(path) then LandingLinks else AppLinks
  }

  /** No link is offered on both kinds of page. */
  lemma NavigationListsDisjoint(landing: string, other: string)
    requires IsLandingPage(landing) && !IsLandingPage(other)
    ensures forall l :: l in Navigation(landing) ==> l !in Navigation(other)
  {
    var a, b := Navigation(landing), Navigation(other);
    assert forall l :: l in a ==> l.href != [] && l.href[0] == '#';
    assert forall l :: l in b ==> l.href != [] && l.href[0] == '/';
  }
}
