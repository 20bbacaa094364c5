/** A concrete database from which a token is issued that no state of the run allows. */
module TransferExample {
  import opened Common
  import opened Strings
  import opened TransferCodec
  import opened HostTransfer
  import opened Routes
  import opened TransferProtocol
  import RolePermissions

  function SampleRow(): Assignment {
    Assignment("j", 1, ExactHost, Some("h"), None, false, true)
  }

  function SampleClaim(): Claim {
    Claim("j", seq(36, i => if i in {8, 13, 18, 23} then '-' else '0'), 1)
  }

  /** One session, its ticket "t" for app "j" at host "h", one assignment and no role. */
  function SampleWorld(): World {
    var sid := SampleClaim().sid;
    World(
      map[sid := Session(1, None, 9, false)]["t" := Session(1, Some(Text("h", "j", sid)), 9, false)],
      map[1 := User(true, true)], [SampleRow()], map[1 := Domain("d", true)],
      RolePermissions.Store(map[], map[], map[]))
  }

  lemma SampleHost()
    ensures ValidHostname("h") && HostOf(SampleRow(), SampleWorld().domains) == Some("h")
  {
    assert "h"[1..] == "" && Split("", '.') == [""];
    assert Split("h", '.') == [["h"[0]] + ""] + [""][1..];
    assert ["h"[0]] + "" == "h";
    TrimBare("h", IsSpace);
    assert AsciiLower("h") == "h";
  }

  lemma SampleTicket()
    ensures var w, claim := SampleWorld(), SampleClaim();
      && CheckTicket(Lookup(w.sessions, "t"), "t", "h", 0) == Some(claim)
      && SourceLive(w, claim, 0) && UserLive(w, claim)
  {
    var claim := SampleClaim();
    SampleHost();
    assert |claim.sid| == 36 && CanonicalUuid(claim.sid);
    CheckTicketExact(SampleWorld().sessions["t"], "t", "h", 0, claim);
  }

  /** A concrete database in which that happens. */
  lemma SampleNeverTogether()
    ensures var s0 := State(SampleWorld(), 0, map[], SampleWorld().sessions.Keys, [], []);
      Init(s0) && exists more :: IssuesUnseen(s0, more, SampleClaim(), "h", [Token(0, "t", SampleClaim().sid)])
  {
    var s0 := State(SampleWorld(), 0, map[], SampleWorld().sessions.Keys, [], []);
    var grants := RolePermissions.Store(map[1 := ["app.*"]], map[], map[1 := {1}]);
    SampleHost();
    SampleTicket();
    AccessNeverTogether(s0, 0, "h", "t", SampleClaim(), SampleRow(), grants);
  }
}
