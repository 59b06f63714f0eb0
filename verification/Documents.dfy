/** The names of the documents the settings store reads and writes. */
module Documents {
  import opened Base

  const STATE_DOCUMENT: string := "settings.toml"

  const CONFIG_DOCUMENTS: seq<string> := [
    "system.json", "network.json", "dns.json", "wifi.json", "ssh.json", "mqtt.json",
    "time.json", "container.json", "bluetooth.json", "services.json"
  ]

  const PROJECTS_PREFIX: string := "container/"
  const PROJECT_SUFFIX: string := ".yaml"
  const MAX_PROJECT_NAME_LEN: nat := 40

  predicate IsProjectName(name: string) {
    && 0 < |name| <= MAX_PROJECT_NAME_LEN
    && ('a' <= name[0] <= 'z' || '0' <= name[0] <= '9')
    && forall i :: 0 <= i < |name| ==>
         'a' <= name[i] <= 'z' || '0' <= name[i] <= '9' || name[i] == '_' || name[i] == '-'
  }

  function ProjectDocument(project: string): string {
    PROJECTS_PREFIX + project + PROJECT_SUFFIX
  }

  /** The project a document belongs to, if its name is that of a project's file. */
  function ProjectOf(document: string): Option<string> {
    var n := |PROJECTS_PREFIX|;
    if !(PROJECTS_PREFIX <= document) then None
    else
      var file := document[n..];
      var m := |file| - |PROJECT_SUFFIX|;
      if m < 0 || file[m..] != PROJECT_SUFFIX || !IsProjectName(file[..m]) then None
      else Some(file[..m])
  }

  /** The names recovery follows in a journal. */
  predicate KnownDocument(document: string) {
    document == STATE_DOCUMENT || document in CONFIG_DOCUMENTS || ProjectOf(document).Some?
  }
}
