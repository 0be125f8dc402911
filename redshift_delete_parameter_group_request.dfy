// DeleteClusterParameterGroupRequest (Amazon Redshift): one string member.
module RedshiftDeleteClusterParameterGroupRequest {
  import opened Wrappers
  import opened Presence

  class DeleteClusterParameterGroupRequest {
    var parameterGroupName: Option<string>

    constructor ()
      ensures parameterGroupName == None && !IsSetParameterGroupName()
    {
      parameterGroupName := None;
    }

    function ParameterGroupName(): Option<string>
      reads this
    {
      parameterGroupName
    }

    /** Only null is unset; the empty string is a value like any other. */
    predicate IsSetParameterGroupName()
      reads this
    {
      IsSetValue(parameterGroupName)
    }

    method SetParameterGroupName(value: Option<string>)
      modifies this
      ensures ParameterGroupName() == value
      ensures IsSetParameterGroupName() <==> value.Some?
    {
      parameterGroupName := value;
    }
  }

  /**
   * Assigning a name and then a second one: each reads back as assigned, each
   * state is set iff the value is non-null (so `""` is set and null unsets).
   */
  method AssignTwice(first: Option<string>, second: Option<string>)
    returns (readFirst: Option<string>, setFirst: bool, readSecond: Option<string>, setSecond: bool)
    ensures readFirst == first && (setFirst <==> first.Some?)
    ensures readSecond == second && (setSecond <==> second.Some?)
  {
    var request := new DeleteClusterParameterGroupRequest();
    request.SetParameterGroupName(first);
    readFirst := request.ParameterGroupName();
    setFirst := request.IsSetParameterGroupName();
    request.SetParameterGroupName(second);
    readSecond := request.ParameterGroupName();
    setSecond := request.IsSetParameterGroupName();
  }

  /** In particular, the empty name is set, and null after a name unsets it. */
  method EmptyNameIsSetAndNullUnsets() returns (emptySet: bool, nullSet: bool)
    ensures emptySet && !nullSet
  {
    var request := new DeleteClusterParameterGroupRequest();
    request.SetParameterGroupName(Some(""));
    emptySet := request.IsSetParameterGroupName();
    request.SetParameterGroupName(None);
    nullSet := request.IsSetParameterGroupName();
  }
}
