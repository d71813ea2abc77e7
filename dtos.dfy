/**
 * The data-transfer objects of the form builder. FormDTO follows
 * DTOs/FormDTO.cs; the response and submit types follow
 * DTOs/FormFieldResponseDTO.cs. FormFieldDTO's class is not part of this
 * model: its members are read off Repositories/FormRepository.cs:74-81.
 * FormTitleDTO's members are read off Controllers/FormApiController.cs:24-28.
 * A C# DateTime is an opaque integer here; strings are Dafny strings.
 */
module Dtos {
  import opened Wrappers

  /** One field of a form as the repository reads and writes it. */
  datatype FormFieldDTO = FormFieldDTO(
    id: int,
    labelText: string,
    options: string,
    selectedOption: string,
    isRequired: bool)

  /** A form with its fields, as the repository returns it. */
  datatype FormDTO = FormDTO(id: int, title: string, createdAt: int, fields: seq<FormFieldDTO>)

  /** One field of a form as the API sends it back. */
  datatype FormFieldResponseDTO = FormFieldResponseDTO(
    labelText: string,
    isRequired: bool,
    options: string,
    selectedOption: string)

  /** A form as the API sends it back: no creation time, no field ids. */
  datatype FormResponseDTO = FormResponseDTO(id: int, title: string, fields: seq<FormFieldResponseDTO>)

  /** One field of a submitted form. */
  datatype FormSubmitFieldDTO = FormSubmitFieldDTO(
    labelText: string,
    options: string,
    selectedOption: string,
    isRequired: bool)

  /** A submitted form; the JSON body may leave the title or the field list null. */
  datatype FormSubmitDTO = FormSubmitDTO(title: Option<string>, fields: Option<seq<FormSubmitFieldDTO>>)

  /** An entry of the titles listing. */
  datatype FormTitleDTO = FormTitleDTO(id: int, title: string)
}
