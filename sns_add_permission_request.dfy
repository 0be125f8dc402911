// AddPermissionRequest (Amazon SNS): two list members that start as empty
// lists and two string members that start null, each with its `IsSet` check.
module SnsAddPermissionRequest {
  import opened Wrappers
  import opened Presence

  class AddPermissionRequest {
    var actionName: Option<seq<string>>
    var awsAccountId: Option<seq<string>>
    /** The `Label` member (`label` is a keyword here). */
    var statementLabel: Option<string>
    var topicArn: Option<string>

    /** The lists start empty and the strings null, so nothing is set. */
    constructor ()
      ensures actionName == Some([]) && awsAccountId == Some([])
      ensures statementLabel == None && topicArn == None
      ensures !IsSetActionName() && !IsSetAWSAccountId() && !IsSetLabel() && !IsSetTopicArn()
    {
      actionName := Some([]);
      awsAccountId := Some([]);
      statementLabel := None;
      topicArn := None;
    }

    function ActionName(): Option<seq<string>>
      reads this
    {
      actionName
    }

    function AWSAccountId(): Option<seq<string>>
      reads this
    {
      awsAccountId
    }

    function Label(): Option<string>
      reads this
    {
      statementLabel
    }

    function TopicArn(): Option<string>
      reads this
    {
      topicArn
    }

    predicate IsSetActionName()
      reads this
    {
      IsSetList(actionName)
    }

    predicate IsSetAWSAccountId()
      reads this
    {
      IsSetList(awsAccountId)
    }

    predicate IsSetLabel()
      reads this
    {
      IsSetValue(statementLabel)
    }

    predicate IsSetTopicArn()
      reads this
    {
      IsSetValue(topicArn)
    }

    method SetActionName(value: Option<seq<string>>)
      modifies this
      ensures ActionName() == value
      ensures IsSetActionName() <==> value.Some? && |value.value| > 0
      ensures awsAccountId == old(awsAccountId) && statementLabel == old(statementLabel) && topicArn == old(topicArn)
    {
      actionName := value;
    }

    method SetAWSAccountId(value: Option<seq<string>>)
      modifies this
      ensures AWSAccountId() == value
      ensures IsSetAWSAccountId() <==> value.Some? && |value.value| > 0
      ensures actionName == old(actionName) && statementLabel == old(statementLabel) && topicArn == old(topicArn)
    {
      awsAccountId := value;
    }

    method SetLabel(value: Option<string>)
      modifies this
      ensures Label() == value
      ensures IsSetLabel() <==> value.Some?
      ensures actionName == old(actionName) && awsAccountId == old(awsAccountId) && topicArn == old(topicArn)
    {
      statementLabel := value;
    }

    method SetTopicArn(value: Option<string>)
      modifies this
      ensures TopicArn() == value
      ensures IsSetTopicArn() <==> value.Some?
      ensures actionName == old(actionName) && awsAccountId == old(awsAccountId) && statementLabel == old(statementLabel)
    {
      topicArn := value;
    }
  }

  /**
   * Assigning `ActionName` on a new request: it reads back as assigned, it is
   * set iff the list is non-null and non-empty, and the other three members
   * stay unset.
   */
  method AssignActionName(value: Option<seq<string>>) returns (read: Option<seq<string>>, isSet: bool, othersSet: bool)
    ensures read == value
    ensures isSet <==> value.Some? && |value.value| > 0
    ensures !othersSet
  {
    var request := new AddPermissionRequest();
    request.SetActionName(value);
    read := request.ActionName();
    isSet := request.IsSetActionName();
    othersSet := request.IsSetAWSAccountId() || request.IsSetLabel() || request.IsSetTopicArn();
  }

  /** The same for `AWSAccountId`. */
  method AssignAWSAccountId(value: Option<seq<string>>) returns (read: Option<seq<string>>, isSet: bool, othersSet: bool)
    ensures read == value
    ensures isSet <==> value.Some? && |value.value| > 0
    ensures !othersSet
  {
    var request := new AddPermissionRequest();
    request.SetAWSAccountId(value);
    read := request.AWSAccountId();
    isSet := request.IsSetAWSAccountId();
    othersSet := request.IsSetActionName() || request.IsSetLabel() || request.IsSetTopicArn();
  }

  /**
   * Assigning `Label` and then `TopicArn`: each reads back as assigned, each
   * is set iff non-null, and the later assignment leaves the earlier one alone.
   */
  method AssignStrings(statementLabel: Option<string>, topicArn: Option<string>)
    returns (readLabel: Option<string>, readTopicArn: Option<string>, labelSet: bool, topicArnSet: bool, listsSet: bool)
    ensures readLabel == statementLabel && readTopicArn == topicArn
    ensures (labelSet <==> statementLabel.Some?) && (topicArnSet <==> topicArn.Some?)
    ensures !listsSet
  {
    var request := new AddPermissionRequest();
    request.SetLabel(statementLabel);
    request.SetTopicArn(topicArn);
    readLabel := request.Label();
    readTopicArn := request.TopicArn();
    labelSet := request.IsSetLabel();
    topicArnSet := request.IsSetTopicArn();
    listsSet := request.IsSetActionName() || request.IsSetAWSAccountId();
  }
}
