/** The two outcome types shared by the model. */
module Wrappers {

  datatype Option<+T> = None | Some(value: T)

  /**
   A call that either returns or throws; the error says which assertion macro fired. Stopped stands
   for a division by zero, which ends the program.
   */
  datatype Result<+T> = Ok(value: T) | Err(error: Error)

  datatype Error = SysError | ParamError | MysqlError | Stopped
}
