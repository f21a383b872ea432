/** Where a name can stand in the vocabulary at all: a decision tree over its length and a few of its characters, which
    leads every name to one domain and verb. It shows that no name is listed twice without comparing them in pairs. */
module CommandIndex {
  import opened CommandTable

  predicate At(name: string, p: nat, c: char) {
    |name| > p && name[p] == c
  }

  function Home1(name: string): (nat, nat) {
    if At(name, 8, 'o') then
      if |name| <= 13 then
        if At(name, 0, 'r') then
          if |name| <= 11 then (4, 7)
          else (3, 7)
        else if At(name, 0, 'e') then (4, 5)
        else (4, 6)
      else if At(name, 1, 'e') then (2, 9)
      else if At(name, 0, 'c') then (2, 3)
      else if At(name, 0, 'i') then (2, 4)
      else (2, 2)
    else if At(name, 11, 'e') then
      if At(name, 7, 'p') then
        if At(name, 1, 'e') then (1, 5)
        else if At(name, 0, 'c') then (1, 2)
        else if At(name, 0, 'i') then (1, 6)
        else (1, 4)
      else if !At(name, 7, 'm') then (0, 6)
      else if At(name, 0, 'd') then (2, 8)
      else (2, 6)
    else if At(name, 8, 'g') then
      if At(name, 0, 'c') then (3, 1)
      else (3, 3)
    else if |name| <= 12 then
      if |name| > 10 then (11, 4)
      else if At(name, 7, 'g') then (11, 1)
      else (11, 2)
    else if |name| <= 13 then (11, 3)
    else (2, 12)
  }

  function Home2(name: string): (nat, nat) {
    if |name| <= 3 then
      if At(name, 1, 'e') then
        if At(name, 0, 'g') then (0, 7)
        else (0, 2)
      else if At(name, 1, 's') then
        if |name| <= 2 then (2, 0)
        else (1, 3)
      else if At(name, 0, 'e') then (7, 0)
      else if At(name, 0, 'l') then (4, 0)
      else (9, 0)
    else if At(name, 0, 'p') then
      if |name| > 4 then (5, 0)
      else if At(name, 2, 'l') then (0, 3)
      else (0, 4)
    else if At(name, 3, 't') then
      if At(name, 0, 'i') then (13, 0)
      else if At(name, 0, 'l') then (0, 1)
      else (12, 1)
    else if At(name, 0, 'd') then
      if At(name, 1, 'i') then (0, 5)
      else (16, 0)
    else if At(name, 2, 'e') then
      if |name| <= 4 then (8, 0)
      else (3, 0)
    else if At(name, 0, 'c') then (6, 0)
    else if At(name, 0, 's') then (0, 8)
    else if At(name, 3, 's') then (4, 0)
    else (14, 0)
  }

  function Home3(name: string): (nat, nat) {
    if |name| <= 8 then
      if At(name, 0, 's') then
        if At(name, 1, 'e') then
          if At(name, 2, 'c') then (0, 0)
          else (11, 0)
        else if |name| <= 6 then (12, 0)
        else (4, 2)
      else if At(name, 0, 'p') then
        if At(name, 1, 'o') then (3, 8)
        else (1, 0)
      else if |name| > 6 then (4, 1)
      else if At(name, 0, 'a') then (3, 0)
      else if At(name, 0, 'l') then (15, 0)
      else (3, 4)
    else if At(name, 0, 'w') then
      if At(name, 1, 'a') then (4, 4)
      else (2, 0)
    else if At(name, 5, 'l') then
      if At(name, 0, 'a') then (2, 10)
      else if At(name, 0, 'l') then (4, 1)
      else (4, 2)
    else if At(name, 5, 'e') then
      if !At(name, 0, 'g') then (0, 2)
      else if At(name, 4, 'm') then (2, 5)
      else (0, 1)
    else if At(name, 4, 'a') then (3, 2)
    else if At(name, 5, 'a') then (3, 2)
    else (3, 6)
  }

  function Home4(name: string): (nat, nat) {
    if |name| <= 12 then
      if At(name, 0, 'l') then
        if At(name, 5, 'm') then (2, 5)
        else (0, 1)
      else if At(name, 0, 'd') then (0, 5)
      else if At(name, 2, 'l') then (0, 3)
      else (0, 4)
    else if |name| <= 15 then
      if At(name, 0, 'p') then (2, 7)
      else (3, 1)
    else if At(name, 0, 'g') then (3, 9)
    else (3, 10)
  }

  function Home5(name: string): (nat, nat) {
    if At(name, 6, 'l') then
      if |name| > 15 then (2, 14)
      else if At(name, 0, 'a') then (2, 11)
      else (2, 13)
    else if At(name, 10, 's') then
      if At(name, 0, 'g') then
        if At(name, 4, 'm') then (2, 5)
        else (0, 1)
      else if !At(name, 0, 'l') then (0, 2)
      else if At(name, 5, 'a') then (3, 2)
      else (3, 6)
    else if At(name, 5, '-') then
      if At(name, 0, 'a') then (2, 11)
      else (3, 5)
    else if At(name, 5, 'o') then
      if |name| <= 12 then (10, 0)
      else if At(name, 0, 'g') then (2, 1)
      else (2, 2)
    else if At(name, 0, 's') then (4, 3)
    else if |name| > 13 then (2, 1)
    else if At(name, 0, 'g') then (1, 1)
    else if At(name, 2, 's') then (1, 1)
    else (1, 3)
  }

  function Home(name: string): (nat, nat) {
    if At(name, 6, '-') then Home1(name)
    else if |name| <= 10 then 
      if |name| <= 5 then Home2(name)
      else Home3(name)
    else if At(name, 6, 'e') then Home4(name)
    else Home5(name)
  }

  /** The `j`-th verb of the `i`-th domain lists the name. */
  predicate ListedAt(name: string, i: nat, j: nat) {
    i < |DOMAINS| && j < |DOMAINS[i].verbs| && name in DOMAINS[i].verbs[j].names
  }

  predicate HasName(d: Domain, j: nat, name: string) {
    j < |d.verbs| && name in d.verbs[j].names
  }

  lemma SecretsHomeLow(name: string, j: nat)
    requires HasName(SECRETS, j, name) && j < 4
    ensures Home(name) == (0, j)
  {
  }

  lemma SecretsHomeHigh(name: string, j: nat)
    requires HasName(SECRETS, j, name) && 4 <= j
    ensures Home(name) == (0, j)
  {
  }

  lemma ProjectsHomeLow(name: string, j: nat)
    requires HasName(PROJECTS, j, name) && j < 2
    ensures Home(name) == (1, j)
  {
  }

  lemma ProjectsHomeMiddle(name: string, j: nat)
    requires HasName(PROJECTS, j, name) && 2 <= j < 4
    ensures Home(name) == (1, j)
  {
  }

  lemma ProjectsHomeHigh(name: string, j: nat)
    requires HasName(PROJECTS, j, name) && 4 <= j
    ensures Home(name) == (1, j)
  {
  }

  lemma WorkspacesHomeLow(name: string, j: nat)
    requires HasName(WORKSPACES, j, name) && j < 3
    ensures Home(name) == (2, j)
  {
  }

  lemma WorkspacesHomeNext(name: string, j: nat)
    requires HasName(WORKSPACES, j, name) && 3 <= j < 5
    ensures Home(name) == (2, j)
  {
  }

  lemma WorkspacesHomeMiddle(name: string, j: nat)
    requires HasName(WORKSPACES, j, name) && 5 <= j < 10
    ensures Home(name) == (2, j)
  {
  }

  lemma WorkspacesHomeHigh(name: string, j: nat)
    requires HasName(WORKSPACES, j, name) && 10 <= j
    ensures Home(name) == (2, j)
  {
  }

  lemma AgentsHomeLow(name: string, j: nat)
    requires HasName(AGENTS, j, name) && j < 5
    ensures Home(name) == (3, j)
  {
  }

  lemma AgentsHomeHigh(name: string, j: nat)
    requires HasName(AGENTS, j, name) && 5 <= j
    ensures Home(name) == (3, j)
  {
  }

  lemma LogsHomeLow(name: string, j: nat)
    requires HasName(LOGS, j, name) && j < 4
    ensures Home(name) == (4, j)
  {
  }

  lemma LogsHomeHigh(name: string, j: nat)
    requires HasName(LOGS, j, name) && 4 <= j
    ensures Home(name) == (4, j)
  {
  }

  lemma ServerHome(name: string, j: nat)
    requires HasName(SERVER, j, name)
    ensures Home(name) == (11, j)
  {
  }

  lemma ShortHome(name: string, i: nat, j: nat)
    requires ListedAt(name, i, j) && 5 <= i < 11
    ensures Home(name) == (i, j)
  {
  }

  lemma LastHome(name: string, i: nat, j: nat)
    requires ListedAt(name, i, j) && 12 <= i
    ensures Home(name) == (i, j)
  {
  }

  lemma ListedAtHome(name: string, i: nat, j: nat)
    requires ListedAt(name, i, j)
    ensures Home(name) == (i, j)
  {
    if i == 0 {
      if j < 4 { SecretsHomeLow(name, j); } else { SecretsHomeHigh(name, j); }
    } else if i == 1 {
      if j < 2 {
        ProjectsHomeLow(name, j);
      } else if j < 4 {
        ProjectsHomeMiddle(name, j);
      } else {
        ProjectsHomeHigh(name, j);
      }
    } else if i == 2 {
      if j < 3 {
        WorkspacesHomeLow(name, j);
      } else if j < 5 {
        WorkspacesHomeNext(name, j);
      } else if j < 10 {
        WorkspacesHomeMiddle(name, j);
      } else {
        WorkspacesHomeHigh(name, j);
      }
    } else if i == 3 {
      if j < 5 { AgentsHomeLow(name, j); } else { AgentsHomeHigh(name, j); }
    } else if i == 4 {
      if j < 4 { LogsHomeLow(name, j); } else { LogsHomeHigh(name, j); }
    } else if i < 11 {
      ShortHome(name, i, j);
    } else if i == 11 {
      ServerHome(name, j);
    } else {
      LastHome(name, i, j);
    }
  }

  /** No name is listed twice. */
  lemma ListedOnce(name: string, i: nat, j: nat, k: nat, l: nat)
    requires ListedAt(name, i, j) && ListedAt(name, k, l)
    ensures i == k && j == l
  {
    ListedAtHome(name, i, j);
    ListedAtHome(name, k, l);
  }
}
