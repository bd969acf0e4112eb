/** The desired state of a Network (apis/network/v1alpha1/network_types.go). */
module NetworkSpec {
  import opened Options

  datatype SubjectSpec = SubjectSpec(name: string, subjects: seq<string>, stream: string)

  datatype StreamConfigSpec = StreamConfigSpec(storage: string, retention: string, maxMsgsPerSubject: int, maxMsgs: int,
                                               maxBytes: int, maxAge: string, maxMsgSize: int, discard: string)

  /** `location` is "node" or "main"; `link` names the linked stream, if any. */
  datatype StreamSpec = StreamSpec(name: string, location: string, link: Option<string>, config: StreamConfigSpec)
}
