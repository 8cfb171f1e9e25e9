/** The action the handshake names, and the report it ends with. */
module Dispatch {
  import opened Machine
  import opened Wrappers
  import Capture
  import Client
  import Deploy
  import PartitionTable

  /** The wipe action: shred over the whole disk, when there is one. */
  method Wipe(c: Computer, server: Server, disk: Option<string>, works: bool, report: Client.Replies)
    returns (success: bool, err: bool)
    modifies c`shredded, server`completed, server`posts
    ensures Reported(old(server.completed), old(server.posts), server.completed, server.posts, report, success)
    ensures success <==> disk.Some? && works
    ensures c.shredded == old(c.shredded) + if disk.Some? then [disk.value] else []
    ensures err <==> success && !Client.Succeeds(report)
  {
    success, err := false, false;
    if disk.None? {
      server.ReportFail(report);
      return;
    }
    c.shredded := c.shredded + [disk.value];
    if !works {
      server.ReportFail(report);
      return;
    }
    success := true;
    var ok := server.Complete(report, true);
    err := !ok;
  }

  /** The requests of an action's final report. */
  function ReportOf(action: string, cenv: Capture.Environment, denv: Deploy.Environment): Client.Replies {
    if action == "capture" then cenv.report else denv.report
  }

  /** Each name starts its own action, with the effect of that action and no other: a deploy restores the
      table and the parts, a capture stores them on the server, a wipe shreds the disk, and only a wipe
      does. These three report exactly once, in one to five requests that all say the same, and return an
      error only if they succeeded and could not say so. Any other action becomes a shell: it reports
      nothing, and returns at all only with the error of the exec. */
  method Dispatch(action: string, c: Computer, server: Server, cenv: Capture.Environment, denv: Deploy.Environment,
                  pc: Partclone, resp: ImageMeta, shredWorks: bool, execFails: bool)
    returns (success: bool, reached: nat, err: bool)
    requires Capture.PipesComplete(cenv) && PartitionTable.ReadFits(cenv.tableTools)
    modifies c`volumes, c`sizes, c`calls, c`shredded, c.area, server
    ensures action in ["deploy", "capture", "wipe"] ==> Reported(
      old(server.completed), old(server.posts), server.completed, server.posts, ReportOf(action, cenv, denv), success)
    ensures action in ["deploy", "capture", "wipe"] ==>
      (err <==> success && !Client.Succeeds(ReportOf(action, cenv, denv)))
    ensures action == "deploy" ==>
      && (success <==> Deploy.SetupSucceeds(denv) && Deploy.AllPartsSucceed(denv, resp.partCount))
      && (Deploy.SetupSucceeds(denv) ==>
            && PartitionTable.Holds(PartitionTable.PlanOf(Deploy.Body(denv.table)), c.area.boot, c.area.table)
            && reached <= resp.partCount && (success ==> reached == resp.partCount)
            && Deploy.IsAfterParts(denv, pc, resp, denv.disk.value, reached,
                                   old(c.volumes), old(c.calls), c.volumes, c.calls))
    ensures action == "capture" ==> var resizable := resp.imageType == "resizable";
      && (success <==> Capture.SetupSucceeds(cenv) && Capture.AllPartsCaptured(
            cenv, pc, resizable, Capture.DevicesOf(cenv), |Capture.DevicesOf(cenv)|, old(c.volumes)))
      && (success ==> Capture.Captured(cenv, pc, resizable, old(c.volumes), c.volumes, server.parts))
      && (success && Capture.MetaStored(cenv) ==>
            server.meta == Some(Capture.MetaOf(cenv, resizable, |Capture.DevicesOf(cenv)|)))
    ensures action == "wipe" ==> (success <==> denv.disk.Some? && shredWorks)
    ensures c.shredded == old(c.shredded) + if action == "wipe" && denv.disk.Some? then [denv.disk.value] else []
    ensures action !in ["deploy", "capture", "wipe"] ==>
      server.completed == old(server.completed) && server.posts == old(server.posts) && err == execFails
    ensures action !in ["deploy", "capture"] ==> c.volumes == old(c.volumes)
    ensures action != "deploy" ==>
      c.calls == old(c.calls) && c.area.boot == old(c.area.boot) && c.area.table == old(c.area.table)
    ensures action != "capture" ==> server.parts == old(server.parts) && server.meta == old(server.meta)
  {
    success, reached, err := false, 0, false;
    match action {
      case "deploy" => success, reached, err := Deploy.Deploy(c, server, denv, pc, resp);
      case "capture" => success, reached, err := Capture.Capture(c, server, cenv, pc, resp.imageType);
      case "wipe" => success, err := Wipe(c, server, denv.disk, shredWorks, denv.report);
      case _ => err := execFails;
    }
  }
}
