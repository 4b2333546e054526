/** The connections a desktop window can select, after `desktop/src/options.rs`. */
module Sources {
  datatype Source = Local(socket: string) | Remote(name: string, configDir: string) | Demo

  /** Where a frame was captured: the manager asked, and its sandbox. */
  datatype Origin = Origin(source: Source, sandbox: string)
}
