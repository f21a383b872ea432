/** The command vocabulary: every raw or aliased name with its domain and action. */
module CommandTable {

  /** All names that mean one action of a domain. */
  datatype Verb = Verb(action: string, names: seq<string>)

  datatype Domain = Domain(name: string, verbs: seq<Verb>)

  const SECRETS := Domain("secrets", [
    Verb("general", ["secrets", "secret"]),
    Verb("list", ["list-secrets", "list-secret", "get-secrets", "get-secret", "list"]),
    Verb("set", ["set-secrets", "set-secret", "set"]),
    Verb("pull", ["pull-secrets", "pull-secret", "pull"]),
    Verb("push", ["push-secrets", "push-secret", "push"]),
    Verb("diff", ["diff-secrets", "diff-secret", "diff"]),
    Verb("delete", ["delete-secrets", "delete-secret", "remove-secrets", "remove-secret"]),
    Verb("get", ["get"]),
    Verb("sync", ["sync"])])

  const PROJECTS := Domain("projects", [
    Verb("general", ["project", "projects"]),
    Verb("list", ["list-projects", "list-project", "get-projects", "get-project"]),
    Verb("create", ["create-project", "create-projects"]),
    Verb("use", ["use-project", "use-projects", "link-project", "link-projects", "use"]),
    Verb("update", ["update-project", "update-projects"]),
    Verb("delete", ["delete-project", "delete-projects", "remove-project", "remove-projects"]),
    Verb("invite", ["invite-project", "invite-projects"])])

  const WORKSPACES := Domain("workspaces", [
    Verb("general", ["workspace", "workspaces", "ws"]),
    Verb("list", ["list-workspaces", "list-workspace", "get-workspaces", "get-workspace"]),
    Verb("switch", ["switch-workspace", "switch-workspaces", "use-workspace", "use-workspaces"]),
    Verb("create", ["create-workspace", "create-workspaces"]),
    Verb("invite", ["invite-workspace", "invite-workspaces"]),
    Verb("members", ["list-members", "list-member", "get-members", "get-member"]),
    Verb("remove_member", ["remove-member", "remove-members"]),
    Verb("promote", ["promote-member", "promote-members"]),
    Verb("demote", ["demote-member", "demote-members"]),
    Verb("delete", ["delete-workspace", "delete-workspaces", "remove-workspace", "remove-workspaces"]),
    Verb("allowlist", ["allowlist", "allowlists"]),
    Verb("allowlist_add", ["add-allowlist", "add-allowlists", "allow-domain", "allow-domains"]),
    Verb("allowlist_remove", ["remove-allowlist", "remove-allowlists"]),
    Verb("allowlist_list", ["list-allowlists", "list-allowlist", "get-allowlists", "get-allowlist"]),
    Verb("allowlist_logs", ["get-allowlist-logs", "list-allowlist-logs"])])

  const AGENTS := Domain("agents", [
    Verb("general", ["agent", "agents"]),
    Verb("register", ["register-agent", "register-agents", "create-agent", "create-agents"]),
    Verb("list", ["list-agents", "list-agent", "get-agents", "get-agent"]),
    Verb("delete", ["delete-agent", "delete-agents", "remove-agent", "remove-agents"]),
    Verb("tokens", ["tokens"]),
    Verb("issue_token", ["issue-token", "issue-tokens"]),
    Verb("list_tokens", ["list-tokens", "list-token", "get-tokens", "get-token"]),
    Verb("revoke_token", ["revoke-token", "revoke-tokens"]),
    Verb("policy", ["policies"]),
    Verb("get_policy", ["get-agent-policy", "get-agent-policies"]),
    Verb("set_policy", ["set-agent-policy", "set-agent-policies"])])

  const LOGS := Domain("logs", [
    Verb("general", ["log", "logs"]),
    Verb("list", ["list-logs", "list-log", "get-logs", "get-log"]),
    Verb("show", ["show-log", "show-logs"]),
    Verb("summarize", ["summarize-logs", "summarize-log", "summary-logs"]),
    Verb("watch", ["watch-logs", "watch-log"]),
    Verb("export", ["export-logs", "export-log"]),
    Verb("verify", ["verify-logs", "verify-log"]),
    Verb("replay", ["replay-log", "replay-logs"])])

  const PROXY := Domain("proxy", [
    Verb("general", ["proxy"])])

  const CALL := Domain("call", [
    Verb("general", ["call"])])

  const ENV := Domain("env", [
    Verb("general", ["env"])])

  const EXEC := Domain("exec", [
    Verb("general", ["exec"])])

  const MCP := Domain("mcp", [
    Verb("general", ["mcp"])])

  const ENVIRONMENT := Domain("environment", [
    Verb("general", ["environment", "environments"])])

  const SERVER := Domain("server", [
    Verb("general", ["server", "servers"]),
    Verb("get", ["server-get"]),
    Verb("set", ["server-set"]),
    Verb("status", ["server-status"]),
    Verb("reset", ["server-reset"])])

  const STATUS := Domain("status", [
    Verb("general", ["status"]),
    Verb("root", ["root"])])

  const INIT := Domain("init", [
    Verb("general", ["init"])])

  const LOGIN := Domain("login", [
    Verb("general", ["login", "auth"])])

  const LOGOUT := Domain("logout", [
    Verb("general", ["logout"])])

  const DOCS := Domain("docs", [
    Verb("general", ["docs"])])

  const DOMAINS := [
    SECRETS, PROJECTS, WORKSPACES, AGENTS, LOGS, PROXY, CALL, ENV, EXEC, MCP, ENVIRONMENT, SERVER, STATUS,
    INIT, LOGIN, LOGOUT, DOCS]

  /** Names that may be recovered from a name run together with a binary path, tried in this order. */
  const KNOWN_PREFIXES := [
    "status", "secrets", "secret", "project", "projects", "workspace", "workspaces", "agent", "agents", "log",
    "logs", "env", "exec", "mcp", "call", "init", "login", "logout", "docs", "environment", "environments",
    "allowlist", "allowlists", "server", "servers"]

  /** Completion and help signals: neither commands nor typos. */
  const IGNORED := {"__complete", "completion", "help", "--help", "-h", "--version", "-v", "version"}

  /** Verbs that count as aliases although they carry no hyphen. */
  const GENERIC_VERBS := {"list", "get", "set", "pull", "push", "diff", "use", "sync"}

  /** What marks a path or a binary, in lower case. The drive form `x:\` always carries a backslash. */
  const MARKERS := ["/", "\\", "appdata", ".exe", ".py", ".sh", ".bat", "program files", "home/", "users/"]
}
