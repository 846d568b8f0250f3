/**
 * The shared data model of the generator: the records it passes between
 * the offline deriver, the batch generator and the page controller.
 */
module Types {

  datatype Option<+T> = None | Some(value: T)

  datatype Result<+R, +E> = Success(value: R) | Failure(error: E)

  /** A value handed to the deriver; the deriver rejects anything that is not a string. */
  datatype JsValue = JsString(s: string) | NonString

  /** One resolved username and its identifier (`UUIDMapping`). */
  datatype Mapping = Mapping(name: string, uuid: string)

  /** How one per-name task settled (`Promise.allSettled` entry). */
  datatype Settled = Fulfilled | Rejected(reason: string)

  /** The generator's result (`MappingResult`): one settled task per input name, and the mappings collected. */
  datatype MappingResult = MappingResult(promises: seq<Settled>, mappings: seq<Mapping>)

  /** `ExportFormat`: 'json' | 'txt'. */
  datatype ExportFormat = Json | Txt

  /** `ImportType`: 'online' | 'offline'. */
  datatype ImportType = Online | Offline

  /** The string a format tag stands for, as it appears in a file extension. */
  function FormatName(f: ExportFormat): string
  {
    match f
    case Json => "json"
    case Txt => "txt"
  }
}
