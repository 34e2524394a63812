/** What internal/store keeps of a merge request that the merge engine and the
    queue both go by. */
module MergeRequest {

  datatype Strategy = Default | FastForward | MergeCommit | Squash | Rebase

  datatype State = Open | SourceGone | Merged | Closed
}
