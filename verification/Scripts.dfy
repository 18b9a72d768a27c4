/** The script value that headers fill, stores keep and executors run. */
module Scripts {
  datatype Script = Script(
    content: string,
    executor: string,
    html: bool,
    libKeys: seq<string>,
    name: string,
    subject: string)

  const NEW_SCRIPT := Script("", "", false, [], "", "")
}
