/**
 * get_area_publish_task: the deferred-task descriptor that publishes one area. The list of
 * department codes (dpts_list) is a parameter.
 */
module Tasks {
  import opened Wrappers
  import opened Areas

  const NationalTask := "batid.tasks.publish_datagouv_national"
  const DepartmentTask := "batid.tasks.publish_datagouv_dpt"

  /** A task-queue signature: the task's name, its positional arguments, and immutability. */
  datatype Signature = Signature(task: string, args: seq<string>, immutable: bool)

  datatype ValueError = ValueError(message: string)

  const MessageHead := "Unknown area: "

  function UnknownAreaMessage(area: string): string
  {
    MessageHead + area + ". It must be either 'nat' or a department code. '" + area + "' given."
  }

  /**
   * "nat" gets the national task without arguments, a known department code gets the
   * departmental task with that code as its one argument, anything else is rejected with a
   * message naming the area.
   */
  function GetAreaPublishTask(area: string, departments: seq<string>): (r: Result<Signature, ValueError>)
    ensures area == NationalArea ==> r == Ok(Signature(NationalTask, [], true))
    ensures area != NationalArea && area in departments ==> r == Ok(Signature(DepartmentTask, [area], true))
    ensures r.Err? <==> area != NationalArea && area !in departments
    ensures r.Err? ==> Contains(r.error.message, area)
  {
    if area == NationalArea then Ok(Signature(NationalTask, [], true))
    else if area in departments then Ok(Signature(DepartmentTask, [area], true))
    else
      var msg := UnknownAreaMessage(area);
      assert OccursAt(msg, area, |MessageHead|) by {
        assert msg[|MessageHead|..|MessageHead| + |area|] == area;
      }
      Err(ValueError(msg))
  }

  /** The area a signature publishes, read back from its task name and arguments. */
  function SignatureArea(s: Signature): Option<string>
  {
    if s.task == NationalTask && s.args == [] then Some(NationalArea)
    else if s.task == DepartmentTask && |s.args| == 1 then Some(s.args[0])
    else None
  }

  /** Every signature handed out publishes exactly the area it was asked for. */
  lemma SignatureAreaRoundTrip(area: string, departments: seq<string>)
    requires GetAreaPublishTask(area, departments).Ok?
    ensures SignatureArea(GetAreaPublishTask(area, departments).value) == Some(area)
    ensures area == NationalArea || area in departments
  {
    assert NationalTask != DepartmentTask by {
      assert |NationalTask| != |DepartmentTask|;
    }
  }
}
