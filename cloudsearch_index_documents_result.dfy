// IndexDocumentsResult (Amazon CloudSearch): one list member whose `IsSet`
// check counts elements without a null check.
module CloudSearchIndexDocumentsResult {
  import opened Wrappers

  class IndexDocumentsResult {
    var fieldNames: Option<seq<string>>

    constructor ()
      ensures fieldNames == Some([]) && !IsSetFieldNames()
    {
      fieldNames := Some([]);
    }

    function FieldNames(): Option<seq<string>>
      reads this
    {
      fieldNames
    }

    /** Reading `Count` of a null list throws, so the check needs a list. */
    predicate IsSetFieldNames()
      requires fieldNames.Some?
      reads this
    {
      |fieldNames.value| > 0
    }

    method SetFieldNames(value: Option<seq<string>>)
      modifies this
      ensures FieldNames() == value
      ensures value.Some? ==> (IsSetFieldNames() <==> |value.value| > 0)
    {
      fieldNames := value;
    }
  }

  /**
   * A new result is unset; assigning a non-null list reads it back and is set
   * iff the list has an element, so an empty list leaves it unset.
   */
  method AssignFieldNames(names: seq<string>) returns (setBefore: bool, read: Option<seq<string>>, setAfter: bool)
    ensures !setBefore
    ensures read == Some(names)
    ensures setAfter <==> |names| > 0
  {
    var result := new IndexDocumentsResult();
    setBefore := result.IsSetFieldNames();
    result.SetFieldNames(Some(names));
    read := result.FieldNames();
    setAfter := result.IsSetFieldNames();
  }
}
