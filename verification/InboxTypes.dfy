/** The inbox row (packages/core/types/inbox.ts), reduced to the columns the rules read. */
module InboxTypes {
  import opened Options
  import opened IssueTypes

  datatype InboxItem = InboxItem(
    id: string,
    issueId: Option<string>,
    issueStatus: Option<Status>,
    read: bool,
    archived: bool,
    createdAt: int,
    details: Option<map<string, string>>)
}
